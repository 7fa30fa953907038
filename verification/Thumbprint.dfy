/** The JWK thumbprint of RFC 7638 that binds a token to a DPoP key. */
module Thumbprint {
  import opened Text
  import opened Base64Url

  /** The members of an elliptic-curve key that the thumbprint covers. */
  datatype Jwk = Jwk(crv: string, kty: string, x: string, y: string)

  function HexDigit(v: int): char
    requires 0 <= v < 16
  {
    if v < 10 then ('0' as int + v) as char else ('a' as int + (v - 10)) as char
  }

  function HexValue(c: char): int {
    if c <= '9' then c as int - '0' as int else c as int - 'a' as int + 10
  }

  function Hex4(n: int): string
    requires 0 <= n < 0x10000
  {
    [HexDigit(n / 4096), HexDigit(n / 256 % 16), HexDigit(n / 16 % 16), HexDigit(n % 16)]
  }

  /** The letter of a two-character escape. */
  function ShortEscape(c: char): Option<char> {
    if c == '"' then Some('"')
    else if c == '\\' then Some('\\')
    else if c == '\n' then Some('n')
    else if c == '\r' then Some('r')
    else if c == '\t' then Some('t')
    else if c as int == 12 then Some('f')
    else if c as int == 8 then Some('b')
    else None
  }

  /** JSON text of one character, ASCII only; a character beyond the basic plane becomes a surrogate pair. */
  function Escape(c: char): string {
    if ShortEscape(c).Some? then ['\\', ShortEscape(c).value]
    else if ' ' <= c <= '~' then [c]
    else if c as int < 0x10000 then "\\u" + Hex4(c as int)
    else "\\u" + Hex4(High(c)) + "\\u" + Hex4(Low(c))
  }

  function High(c: char): int
    requires c as int >= 0x10000
  {
    0xd800 + (c as int - 0x10000) / 1024
  }

  function Low(c: char): int
    requires c as int >= 0x10000
  {
    0xdc00 + (c as int - 0x10000) % 1024
  }

  /** A quoted string and what follows it. */
  function Quoted(s: string, rest: string): string {
    ['"'] + Unquoted(s, rest)
  }

  /** The same without the opening quote. */
  function Unquoted(s: string, rest: string): string {
    if s == "" then ['"'] + rest else Escape(s[0]) + Unquoted(s[1..], rest)
  }

  /** The JSON object of exactly these members, in this order and without spaces. */
  function Canonical(k: Jwk): string {
    Member("{\"crv\":", k.crv, Member(",\"kty\":", k.kty, Member(",\"x\":", k.x, Member(",\"y\":", k.y, "}"))))
  }

  function Member(name: string, value: string, rest: string): string {
    name + Quoted(value, rest)
  }

  /** base64url of a hash. */
  function Digest(hash: string -> seq<byte>, text: string): string {
    Encode(hash(text))
  }

  function KeyThumbprint(hash: string -> seq<byte>, k: Jwk): string {
    Digest(hash, Canonical(k))
  }

  lemma HexValueInverts(v: int)
    requires 0 <= v < 16
    ensures HexValue(HexDigit(v)) == v && ' ' <= HexDigit(v) <= '~'
  {
  }

  lemma HexDigitInjective(v: int, w: int)
    requires 0 <= v < 16 && 0 <= w < 16 && HexDigit(v) == HexDigit(w)
    ensures v == w
  {
    HexValueInverts(v);
    HexValueInverts(w);
  }

  lemma FourDigits(n: int)
    requires 0 <= n < 0x10000
    ensures n == n / 4096 * 4096 + n / 256 % 16 * 256 + n / 16 % 16 * 16 + n % 16
  {
    assert n / 16 / 16 == n / 256 && n / 256 / 16 == n / 4096;
  }

  lemma Hex4Injective(m: int, n: int)
    requires 0 <= m < 0x10000 && 0 <= n < 0x10000 && Hex4(m) == Hex4(n)
    ensures m == n
  {
    var s, t := Hex4(m), Hex4(n);
    assert s[0] == t[0] && s[1] == t[1] && s[2] == t[2] && s[3] == t[3];
    HexDigitInjective(m / 4096, n / 4096);
    HexDigitInjective(m / 256 % 16, n / 256 % 16);
    HexDigitInjective(m / 16 % 16, n / 16 % 16);
    HexDigitInjective(m % 16, n % 16);
    FourDigits(m);
    FourDigits(n);
  }

  predicate IsLong(c: char) {
    ShortEscape(c).None? && !(' ' <= c <= '~')
  }

  /** The first characters of an escape tell which kind it is. */
  lemma EscapeShape(c: char)
    ensures var e := Escape(c);
            && (ShortEscape(c).Some? ==> |e| == 2 && e[0] == '\\' && e[1] == ShortEscape(c).value != 'u')
            && (ShortEscape(c).None? && !IsLong(c) ==> e == [c] && c != '\\' && c != '"')
            && (IsLong(c) && c as int < 0x10000 ==> |e| == 6 && e[0] == '\\' && e[1] == 'u' && e[2..6] == Hex4(c as int))
            && (IsLong(c) && c as int >= 0x10000 ==> |e| == 12 && e[0] == '\\' && e[1] == 'u' && e[2..6] == Hex4(High(c)) && e[8..12] == Hex4(Low(c)))
  {
  }

  lemma ShortInjective(c: char, d: char)
    requires ShortEscape(c).Some? && ShortEscape(c) == ShortEscape(d)
    ensures c == d
  {
  }

  lemma LongSplit(c: char, d: char, x: string, y: string)
    requires IsLong(c) && IsLong(d) && Escape(c) + x == Escape(d) + y
    ensures c == d
  {
    EscapeShape(c);
    EscapeShape(d);
    var s := Escape(c) + x;
    assert s[2..6] == Escape(c)[2..6] && s[2..6] == Escape(d)[2..6];
    var m := if c as int < 0x10000 then c as int else High(c);
    var n := if d as int < 0x10000 then d as int else High(d);
    Hex4Injective(m, n);
    if c as int >= 0x10000 && d as int >= 0x10000 {
      assert s[8..12] == Escape(c)[8..12] && s[8..12] == Escape(d)[8..12];
      Hex4Injective(Low(c), Low(d));
    }
  }

  /** Escapes form a prefix code: no text begins with the escapes of two characters. */
  lemma EscapeSplit(c: char, d: char, x: string, y: string)
    requires Escape(c) + x == Escape(d) + y
    ensures c == d && x == y
  {
    EscapeShape(c);
    EscapeShape(d);
    var s := Escape(c) + x;
    assert s[0] == Escape(c)[0] && s[0] == Escape(d)[0];
    if s[0] == '\\' {
      assert s[1] == Escape(c)[1] && s[1] == Escape(d)[1];
      if IsLong(c) && IsLong(d) {
        LongSplit(c, d, x, y);
      } else {
        ShortInjective(c, d);
      }
    }
    assert x == s[|Escape(c)|..] && y == s[|Escape(d)|..];
  }

  lemma ClosesAtOnce(a: string, x: string)
    ensures Unquoted(a, x) != "" && (Unquoted(a, x)[0] == '"' <==> a == "")
  {
    if a != "" { EscapeShape(a[0]); }
  }

  /** A quoted string ends where it says. */
  lemma {:induction false} UnquotedSplit(a: string, b: string, x: string, y: string)
    requires Unquoted(a, x) == Unquoted(b, y)
    ensures a == b && x == y
    decreases |a|
  {
    ClosesAtOnce(a, x);
    ClosesAtOnce(b, y);
    if a == "" {
      assert x == Unquoted(a, x)[1..] && y == Unquoted(b, y)[1..];
    } else {
      EscapeSplit(a[0], b[0], Unquoted(a[1..], x), Unquoted(b[1..], y));
      UnquotedSplit(a[1..], b[1..], x, y);
      assert a == [a[0]] + a[1..] && b == [b[0]] + b[1..];
    }
  }

  lemma MemberSplit(name: string, a: string, b: string, x: string, y: string)
    requires Member(name, a, x) == Member(name, b, y)
    ensures a == b && x == y
  {
    assert Quoted(a, x) == Member(name, a, x)[|name|..] && Quoted(b, y) == Member(name, b, y)[|name|..];
    assert Unquoted(a, x) == Quoted(a, x)[1..] && Unquoted(b, y) == Quoted(b, y)[1..];
    UnquotedSplit(a, b, x, y);
  }

  /** Different keys have different canonical texts, whatever characters their members hold. */
  lemma CanonicalInjective(a: Jwk, b: Jwk)
    requires Canonical(a) == Canonical(b)
    ensures a == b
  {
    var a3, b3 := Member(",\"y\":", a.y, "}"), Member(",\"y\":", b.y, "}");
    var a2, b2 := Member(",\"x\":", a.x, a3), Member(",\"x\":", b.x, b3);
    var a1, b1 := Member(",\"kty\":", a.kty, a2), Member(",\"kty\":", b.kty, b2);
    MemberSplit("{\"crv\":", a.crv, b.crv, a1, b1);
    MemberSplit(",\"kty\":", a.kty, b.kty, a2, b2);
    MemberSplit(",\"x\":", a.x, b.x, a3, b3);
    MemberSplit(",\"y\":", a.y, b.y, "}", "}");
  }

  lemma DigestTellsHashes(hash: string -> seq<byte>, a: string, b: string)
    ensures Digest(hash, a) == Digest(hash, b) <==> hash(a) == hash(b)
  {
    RoundTrip(hash(a));
    RoundTrip(hash(b));
  }

  /** The thumbprint binds the key: another key has the same one exactly when the hash collides on two different canonical
      texts. */
  lemma ThumbprintBindsKey(hash: string -> seq<byte>, a: Jwk, b: Jwk)
    ensures KeyThumbprint(hash, a) == KeyThumbprint(hash, b)
            <==> a == b || (Canonical(a) != Canonical(b) && hash(Canonical(a)) == hash(Canonical(b)))
  {
    DigestTellsHashes(hash, Canonical(a), Canonical(b));
    if Canonical(a) == Canonical(b) { CanonicalInjective(a, b); }
  }

  predicate Ascii(s: string) {
    forall c :: c in s ==> ' ' <= c <= '~'
  }

  lemma {:induction false} UnquotedIsAscii(s: string, rest: string)
    requires Ascii(rest)
    ensures Ascii(Unquoted(s, rest))
  {
    if s != "" {
      UnquotedIsAscii(s[1..], rest);
      EscapeIsAscii(s[0]);
    }
  }

  lemma EscapeIsAscii(c: char)
    ensures Ascii(Escape(c))
  {
    forall v | 0 <= v < 16 ensures ' ' <= HexDigit(v) <= '~' { HexValueInverts(v); }
  }

  lemma MemberIsAscii(name: string, value: string, rest: string)
    requires Ascii(name) && Ascii(rest)
    ensures Ascii(Member(name, value, rest))
  {
    UnquotedIsAscii(value, rest);
  }

  /** The canonical text is printable ASCII, so its bytes in UTF-8 are its characters. */
  lemma CanonicalIsAscii(k: Jwk)
    ensures Ascii(Canonical(k))
  {
    var a3 := Member(",\"y\":", k.y, "}");
    var a2 := Member(",\"x\":", k.x, a3);
    MemberIsAscii(",\"y\":", k.y, "}");
    MemberIsAscii(",\"x\":", k.x, a3);
    MemberIsAscii(",\"kty\":", k.kty, a2);
    MemberIsAscii("{\"crv\":", k.crv, Member(",\"kty\":", k.kty, a2));
  }

  // ---- What the text says ----

  /** For members of printable characters without quote and backslash, as key members are, the text in full. */
  lemma CanonicalPlain(k: Jwk)
    requires Plain(k.crv) && Plain(k.kty) && Plain(k.x) && Plain(k.y)
    ensures Canonical(k) ==
      "{\"crv\":\"" + k.crv + "\",\"kty\":\"" + k.kty + "\",\"x\":\"" + k.x + "\",\"y\":\"" + k.y + "\"}"
  {
    var a3 := Member(",\"y\":", k.y, "}");
    var a2 := Member(",\"x\":", k.x, a3);
    var a1 := Member(",\"kty\":", k.kty, a2);
    MemberPlain(",\"y\":", k.y, "}");
    MemberPlain(",\"x\":", k.x, a3);
    MemberPlain(",\"kty\":", k.kty, a2);
    MemberPlain("{\"crv\":", k.crv, a1);
    PlainPieces(k.crv, k.kty, k.x, k.y);
  }

  predicate Plain(s: string) {
    forall c :: c in s ==> ' ' <= c <= '~' && c != '"' && c != '\\'
  }

  lemma {:induction false} UnquotedPlain(s: string, rest: string)
    requires Plain(s)
    ensures Unquoted(s, rest) == s + "\"" + rest
  {
    if s == "" {
      assert s + "\"" + rest == "\"" + rest;
    } else {
      assert s[0] in s && forall c :: c in s[1..] ==> c in s;
      UnquotedPlain(s[1..], rest);
      assert s == [s[0]] + s[1..];
      assert [s[0]] + (s[1..] + "\"" + rest) == s + "\"" + rest;
    }
  }

  lemma MemberPlain(name: string, value: string, rest: string)
    requires Plain(value)
    ensures Member(name, value, rest) == name + "\"" + value + "\"" + rest
  {
    UnquotedPlain(value, rest);
    assert name + (['"'] + (value + "\"" + rest)) == name + "\"" + value + "\"" + rest;
  }

  lemma PlainPieces(crv: string, kty: string, x: string, y: string)
    ensures "{\"crv\":" + "\"" + crv + "\"" + (",\"kty\":" + "\"" + kty + "\"" + (",\"x\":" + "\"" + x + "\"" + (",\"y\":" + "\"" + y + "\"" + "}")))
            == "{\"crv\":\"" + crv + "\",\"kty\":\"" + kty + "\",\"x\":\"" + x + "\",\"y\":\"" + y + "\"}"
  {
    assert "{\"crv\":" + "\"" == "{\"crv\":\"";
    assert "\"" + ",\"kty\":" + "\"" == "\",\"kty\":\"";
    assert "\"" + ",\"x\":" + "\"" == "\",\"x\":\"";
    assert "\"" + ",\"y\":" + "\"" == "\",\"y\":\"";
    assert "\"" + "}" == "\"}";
  }

  /** A digest decodes to the hash of the very text. */
  lemma DigestDecodes(hash: string -> seq<byte>, k: Jwk, text: string)
    ensures Decode(Digest(hash, text)) == Some(hash(text))
    ensures Decode(KeyThumbprint(hash, k)) == Some(hash(Canonical(k)))
  {
    RoundTrip(hash(text));
    RoundTrip(hash(Canonical(k)));
  }

  // ---- A JSON reader for strings (section 7 of RFC 8259) ----

  function HexOf(c: char): Option<int> {
    if '0' <= c <= '9' then Some(c as int - '0' as int)
    else if 'a' <= c <= 'f' then Some(c as int - 'a' as int + 10)
    else if 'A' <= c <= 'F' then Some(c as int - 'A' as int + 10)
    else None
  }

  function ReadHex4(s: string): Option<int> {
    if |s| < 4 then None
    else
      match (HexOf(s[0]), HexOf(s[1]), HexOf(s[2]), HexOf(s[3]))
      case (Some(a), Some(b), Some(c), Some(d)) => Some(a * 4096 + b * 256 + c * 16 + d)
      case _ => None
  }

  /** The first character of a string's text, and how much of the text it takes. */
  function ReadChar(s: string): Option<(char, nat)> {
    if s == "" || s[0] == '"' || s[0] < ' ' then None
    else if s[0] != '\\' then Some((s[0], 1))
    else if |s| < 2 then None
    else if s[1] == 'u' then ReadUnicode(s)
    else if s[1] == '"' || s[1] == '\\' || s[1] == '/' then Some((s[1], 2))
    else if s[1] == 'b' then Some((8 as char, 2))
    else if s[1] == 'f' then Some((12 as char, 2))
    else if s[1] == 'n' then Some(('\n', 2))
    else if s[1] == 'r' then Some(('\r', 2))
    else if s[1] == 't' then Some(('\t', 2))
    else None
  }

  /** A four-digit escape, or two that form a surrogate pair. */
  function ReadUnicode(s: string): Option<(char, nat)>
    requires |s| >= 2
  {
    match ReadHex4(s[2..])
    case None => None
    case Some(n) =>
      if 0 <= n < 0xd800 || 0xe000 <= n < 0x10000 then Some((n as char, 6))
      else if 0xd800 <= n < 0xdc00 && |s| >= 12 && s[6] == '\\' && s[7] == 'u' then
        match ReadHex4(s[8..])
        case Some(m) => if 0xdc00 <= m < 0xe000 then Some(((0x10000 + (n - 0xd800) * 1024 + (m - 0xdc00)) as char, 12)) else None
        case None => None
      else None
  }

  /** A string's text up to its closing quote, and what follows. */
  function ReadString(s: string): Option<(string, string)>
    decreases |s|
  {
    if s != "" && s[0] == '"' then Some(("", s[1..]))
    else
      match ReadChar(s)
      case None => None
      case Some((c, n)) =>
        if n == 0 || n > |s| then None
        else
          match ReadString(s[n..])
          case None => None
          case Some((more, rest)) => Some(([c] + more, rest))
  }

  lemma ReadHexDigit(v: int)
    requires 0 <= v < 16
    ensures HexOf(HexDigit(v)) == Some(v)
  {
  }

  lemma ReadHex4Written(n: int, t: string)
    requires 0 <= n < 0x10000
    ensures ReadHex4(Hex4(n) + t) == Some(n)
  {
    ReadHexDigit(n / 4096);
    ReadHexDigit(n / 256 % 16);
    ReadHexDigit(n / 16 % 16);
    ReadHexDigit(n % 16);
    FourDigits(n);
    var s := Hex4(n) + t;
    assert s[0] == Hex4(n)[0] && s[1] == Hex4(n)[1] && s[2] == Hex4(n)[2] && s[3] == Hex4(n)[3];
  }

  /** Reading undoes every escape, whichever kind it is. */
  lemma ReadEscape(c: char, t: string)
    ensures ReadChar(Escape(c) + t) == Some((c, |Escape(c)|))
  {
    EscapeShape(c);
    var s := Escape(c) + t;
    assert s[0] == Escape(c)[0];
    if IsLong(c) {
      assert s[1] == Escape(c)[1];
      ReadLong(c, t);
    } else if ShortEscape(c).Some? {
      assert s[1] == Escape(c)[1];
    }
  }

  lemma ReadLong(c: char, t: string)
    requires IsLong(c)
    ensures |Escape(c) + t| >= 2 && ReadUnicode(Escape(c) + t) == Some((c, |Escape(c)|))
  {
    EscapeShape(c);
    var e, s := Escape(c), Escape(c) + t;
    if c as int < 0x10000 {
      assert s[2..] == Hex4(c as int) + t;
      ReadHex4Written(c as int, t);
    } else {
      assert e == "\\u" + Hex4(High(c)) + "\\u" + Hex4(Low(c));
      assert s[2..] == Hex4(High(c)) + ("\\u" + Hex4(Low(c)) + t);
      assert s[8..] == Hex4(Low(c)) + t;
      assert s[6] == '\\' && s[7] == 'u';
      ReadHex4Written(High(c), "\\u" + Hex4(Low(c)) + t);
      ReadHex4Written(Low(c), t);
    }
  }

  /** What was written is read back, for every string and whatever follows it: the text is JSON for exactly this value. */
  lemma {:induction false} ReadWritten(s: string, rest: string)
    ensures ReadString(Unquoted(s, rest)) == Some((s, rest))
  {
    ClosesAtOnce(s, rest);
    if s == "" {
      assert Unquoted(s, rest)[1..] == rest;
    } else {
      var e, more := Escape(s[0]), Unquoted(s[1..], rest);
      EscapeShape(s[0]);
      ReadEscape(s[0], more);
      assert (e + more)[|e|..] == more;
      ReadWritten(s[1..], rest);
      assert s == [s[0]] + s[1..];
    }
  }
}
