/**
 * The compact payload codec of the export links: bytes to URL-safe base64
 * without padding (section 5 of RFC 4648, padding dropped as section 3.2
 * allows) and back. Encoding goes through the standard alphabet of section 4
 * with `btoa`; decoding maps back to that alphabet, restores the padding and
 * uses `atob` as the HTML standard's forgiving-base64 decode defines it.
 */
module Base64Url {
  import opened Wrappers

  newtype byte = x: int | 0 <= x < 256

  // ---------------------------------------------------------------------------
  // The standard alphabet (section 4 of RFC 4648)
  // ---------------------------------------------------------------------------

  /** The character of a six-bit value. */
  function StdChar(v: int): (c: char)
    requires 0 <= v < 64
    ensures IsStdChar(c)
  {
    if v < 26 then ('A' as int + v) as char
    else if v < 52 then ('a' as int + v - 26) as char
    else if v < 62 then ('0' as int + v - 52) as char
    else if v == 62 then '+'
    else '/'
  }

  predicate IsStdChar(c: char)
  {
    ('A' <= c <= 'Z') || ('a' <= c <= 'z') || ('0' <= c <= '9') || c == '+' || c == '/'
  }

  /** The six-bit value of an alphabet character. */
  function Sextet(c: char): (v: int)
    requires IsStdChar(c)
    ensures 0 <= v < 64 && StdChar(v) == c
  {
    if 'A' <= c <= 'Z' then c as int - 'A' as int
    else if 'a' <= c <= 'z' then c as int - 'a' as int + 26
    else if '0' <= c <= '9' then c as int - '0' as int + 52
    else if c == '+' then 62
    else 63
  }

  lemma SextetOfStdChar(v: int)
    requires 0 <= v < 64
    ensures Sextet(StdChar(v)) == v
  {
  }

  predicate AllStd(s: string)
  {
    forall i :: 0 <= i < |s| ==> IsStdChar(s[i])
  }

  // ---------------------------------------------------------------------------
  // Binary strings: one character per byte
  // ---------------------------------------------------------------------------

  /** `Array.from(bytes).map((b) => String.fromCharCode(b)).join("")`. */
  function BinaryString(b: seq<byte>): (s: string)
    ensures |s| == |b| && forall i :: 0 <= i < |b| ==> s[i] as int == b[i] as int
  {
    seq(|b|, i requires 0 <= i < |b| => (b[i] as int) as char)
  }

  predicate IsBinary(s: string)
  {
    forall i :: 0 <= i < |s| ==> s[i] as int < 256
  }

  /** The code units of a binary string. */
  function CodeUnits(s: string): (b: seq<byte>)
    requires IsBinary(s)
    ensures |b| == |s| && forall i :: 0 <= i < |s| ==> b[i] as int == s[i] as int
  {
    seq(|s|, i requires 0 <= i < |s| => s[i] as int as byte)
  }

  // ---------------------------------------------------------------------------
  // btoa
  // ---------------------------------------------------------------------------

  /** Three bytes as four characters. */
  function EncodeTriple(x: byte, y: byte, z: byte): (g: string)
    ensures |g| == 4 && AllStd(g)
  {
    var a, b, c := x as int, y as int, z as int;
    [StdChar(a / 4), StdChar((a % 4) * 16 + b / 16), StdChar((b % 16) * 4 + c / 64), StdChar(c % 64)]
  }

  /** Two final bytes as three characters (the low two bits are zero). */
  function EncodePair(x: byte, y: byte): (g: string)
    ensures |g| == 3 && AllStd(g)
  {
    var a, b := x as int, y as int;
    [StdChar(a / 4), StdChar((a % 4) * 16 + b / 16), StdChar((b % 16) * 4)]
  }

  /** One final byte as two characters (the low four bits are zero). */
  function EncodeSingle(x: byte): (g: string)
    ensures |g| == 2 && AllStd(g)
  {
    var a := x as int;
    [StdChar(a / 4), StdChar((a % 4) * 16)]
  }

  /** The characters of the full groups and of the final partial group, before padding. */
  function EncodeBody(b: seq<byte>): (s: string)
    ensures AllStd(s) && |s| == BodyLength(|b|)
  {
    if |b| >= 3 then EncodeTriple(b[0], b[1], b[2]) + EncodeBody(b[3..])
    else if |b| == 2 then EncodePair(b[0], b[1])
    else if |b| == 1 then EncodeSingle(b[0])
    else []
  }

  /** The number of characters before the padding for `n` bytes. */
  function BodyLength(n: nat): nat
  {
    if n >= 3 then 4 + BodyLength(n - 3) else if n == 0 then 0 else n + 1
  }

  /** The number of '=' that complete the last group of four for `n` bytes. */
  function PadCount(n: nat): (p: nat)
    ensures p < 3
  {
    if n >= 3 then PadCount(n - 3) else if n == 0 then 0 else 3 - n
  }

  function RepeatEquals(n: nat): (s: string)
    ensures |s| == n && forall i :: 0 <= i < n ==> s[i] == '='
  {
    seq(n, i => '=')
  }

  /** `btoa(binary)` for a binary string (one that `btoa` does not reject). */
  function Btoa(binary: string): string
    requires IsBinary(binary)
  {
    var b := CodeUnits(binary);
    EncodeBody(b) + RepeatEquals(PadCount(|b|))
  }

  /** The output of `btoa` has a length that divides by four, and its characters never end in a group of one. */
  lemma {:induction false} BodyLengthPadding(n: nat)
    ensures (BodyLength(n) + PadCount(n)) % 4 == 0
    ensures BodyLength(n) % 4 != 1
  {
    if n >= 3 {
      BodyLengthPadding(n - 3);
      var m := BodyLength(n - 3);
      assert BodyLength(n) == m + 4 && PadCount(n) == PadCount(n - 3);
      assert (m + 4) % 4 == m % 4;
      assert (m + 4 + PadCount(n)) % 4 == (m + PadCount(n)) % 4;
    }
  }

  /** `fromBase64Url`'s padding rule restores exactly the padding `btoa` produced. */
  lemma RestoredPaddingOfBody(n: nat)
    ensures RestoredPadding(BodyLength(n)) == PadCount(n)
  {
    BodyLengthPadding(n);
  }

  // ---------------------------------------------------------------------------
  // atob (forgiving-base64 decode)
  // ---------------------------------------------------------------------------

  /** The `InvalidCharacterError` that `atob` throws. */
  datatype AtobError = InvalidCharacterError

  predicate IsAsciiWhitespace(c: char)
  {
    c == '\t' || c == '\n' || c == '\U{000C}' || c == '\r' || c == ' '
  }

  function RemoveWhitespace(s: string): (r: string)
    ensures forall i :: 0 <= i < |r| ==> !IsAsciiWhitespace(r[i])
    ensures (forall i :: 0 <= i < |s| ==> !IsAsciiWhitespace(s[i])) ==> r == s
  {
    if s == [] then []
    else (if IsAsciiWhitespace(s[0]) then [] else [s[0]]) + RemoveWhitespace(s[1..])
  }

  /** With a length that divides by four, one or two trailing '=' are removed. */
  function DropPadding(t: string): (u: string)
    ensures u <= t && |t| - 2 <= |u|
  {
    if |t| % 4 != 0 then t
    else if |t| >= 2 && t[|t| - 2] == '=' && t[|t| - 1] == '=' then t[..|t| - 2]
    else if |t| >= 1 && t[|t| - 1] == '=' then t[..|t| - 1]
    else t
  }

  function DecodeQuad(g: string): (b: seq<byte>)
    requires |g| == 4 && AllStd(g)
  {
    var p, q, r, t := Sextet(g[0]), Sextet(g[1]), Sextet(g[2]), Sextet(g[3]);
    [(p * 4 + q / 16) as byte, ((q % 16) * 16 + r / 4) as byte, ((r % 4) * 64 + t) as byte]
  }

  /** A final group of three characters: two bytes, the low two bits dropped. */
  function DecodeTrio(g: string): (b: seq<byte>)
    requires |g| == 3 && AllStd(g)
  {
    var p, q, r := Sextet(g[0]), Sextet(g[1]), Sextet(g[2]);
    [(p * 4 + q / 16) as byte, ((q % 16) * 16 + r / 4) as byte]
  }

  /** A final group of two characters: one byte, the low four bits dropped. */
  function DecodeDuo(g: string): (b: seq<byte>)
    requires |g| == 2 && AllStd(g)
  {
    var p, q := Sextet(g[0]), Sextet(g[1]);
    [(p * 4 + q / 16) as byte]
  }

  /** Decodes groups of four characters to three bytes; a final group of three gives two bytes, of two one byte. */
  function DecodeBody(u: string): (b: seq<byte>)
    requires AllStd(u) && |u| % 4 != 1
  {
    if |u| >= 4 then DecodeQuad(u[..4]) + DecodeBody(u[4..])
    else if |u| == 3 then DecodeTrio(u)
    else if |u| == 2 then DecodeDuo(u)
    else []
  }

  /**
   * `atob(data)`: whitespace removed, then up to two trailing '=' when the
   * length divides by four; a length of 1 modulo 4 or any character outside
   * the alphabet is an error; else the decoded bytes as a binary string.
   */
  function Atob(data: string): (r: Result<string, AtobError>)
    ensures r.Ok? ==> IsBinary(r.value)
  {
    var u := DropPadding(RemoveWhitespace(data));
    if |u| % 4 == 1 then Err(InvalidCharacterError)
    else if !AllStd(u) then Err(InvalidCharacterError)
    else Ok(BinaryString(DecodeBody(u)))
  }

  // ---------------------------------------------------------------------------
  // The URL-safe conversion
  // ---------------------------------------------------------------------------

  /** `s.replace(/<from>/g, to)` for one character. */
  function ReplaceAll(s: string, from: char, to: char): (r: string)
    ensures |r| == |s|
    ensures forall i :: 0 <= i < |s| ==> r[i] == if s[i] == from then to else s[i]
  {
    seq(|s|, i requires 0 <= i < |s| => if s[i] == from then to else s[i])
  }

  /** `s.replace(/=+$/g, "")`: every trailing '=' removed. */
  function StripTrailingEquals(s: string): (r: string)
    ensures r <= s && (r == [] || r[|r| - 1] != '=')
    ensures forall i :: |r| <= i < |s| ==> s[i] == '='
  {
    if s != [] && s[|s| - 1] == '=' then StripTrailingEquals(s[..|s| - 1]) else s
  }

  /** `toBase64Url(bytes)`. */
  function ToBase64Url(bytes: seq<byte>): (s: string)
    ensures forall i :: 0 <= i < |s| ==> s[i] != '+' && s[i] != '/'
    ensures s == [] || s[|s| - 1] != '='
  {
    var binary := BinaryString(bytes);
    StripTrailingEquals(ReplaceAll(ReplaceAll(Btoa(binary), '+', '-'), '/', '_'))
  }

  /** The URL-safe alphabet of section 5 of RFC 4648. */
  predicate IsUrlChar(c: char)
  {
    ('A' <= c <= 'Z') || ('a' <= c <= 'z') || ('0' <= c <= '9') || c == '-' || c == '_'
  }

  /** The standard-alphabet text that `fromBase64Url` hands to `atob`. */
  function UrlToStd(s: string): (r: string)
    ensures |r| == |s|
  {
    ReplaceAll(ReplaceAll(s, '-', '+'), '_', '/')
  }

  /** The number of '=' that `fromBase64Url` appends. */
  function RestoredPadding(len: nat): (p: nat)
    ensures p <= 3 && (len + p) % 4 == 0
    ensures p == 0 <==> len % 4 == 0
  {
    if len % 4 == 0 then 0 else 4 - len % 4
  }

  /** The padded standard text of a URL-safe string. */
  function Repadded(base64url: string): string
  {
    var base64 := UrlToStd(base64url);
    base64 + RepeatEquals(RestoredPadding(|base64|))
  }

  /**
   * `fromBase64Url(base64url)`: the bytes whose codes are the characters of
   * `atob` applied to the re-padded standard text, or the error `atob` throws.
   * Every output of `toBase64Url` decodes back to the bytes it encodes.
   */
  method FromBase64Url(base64url: string) returns (r: Result<seq<byte>, AtobError>)
    ensures r.Err? <==> Atob(Repadded(base64url)).Err?
    ensures r.Ok? ==> |r.value| == |Atob(Repadded(base64url)).value|
    ensures r.Ok? ==> forall i :: 0 <= i < |r.value| ==> r.value[i] as int == Atob(Repadded(base64url)).value[i] as int
    ensures forall b :: ToBase64Url(b) == base64url ==> r == Ok(b)
  {
    var base64 := UrlToStd(base64url);
    var padding := RestoredPadding(|base64|);
    var padded := base64 + RepeatEquals(padding);
    assert padded == Repadded(base64url);
    var decoded := Atob(padded);
    if decoded.Err? {
      r := Err(decoded.error);
      forall b | ToBase64Url(b) == base64url
        ensures false
      {
        RoundTrip(b);
      }
      return;
    }
    var bytes := ByteCodes(decoded.value);
    r := Ok(bytes[..]);
    forall b | ToBase64Url(b) == base64url
      ensures bytes[..] == b
    {
      RoundTrip(b);
    }
  }

  /** The loop that copies each character code of a binary string into a fresh byte array. */
  method ByteCodes(binary: string) returns (bytes: array<byte>)
    requires IsBinary(binary)
    ensures fresh(bytes) && bytes[..] == CodeUnits(binary)
  {
    bytes := new byte[|binary|];
    for i := 0 to |binary|
      invariant forall k :: 0 <= k < i ==> bytes[k] as int == binary[k] as int
    {
      bytes[i] := binary[i] as int as byte;
    }
  }

  /** `encodeJsonToBase64Url(json)`, with the UTF-8 encoder of `TextEncoder` as a parameter. */
  function EncodeJsonToBase64Url(json: string, utf8Encode: string -> seq<byte>): (s: string)
    ensures Atob(Repadded(s)) == Ok(BinaryString(utf8Encode(json)))
  {
    RoundTrip(utf8Encode(json));
    ToBase64Url(utf8Encode(json))
  }

  /**
   * `decodeBase64UrlToJson(base64url)`, with the UTF-8 decoder of
   * `TextDecoder` as a parameter: on the byte level it undoes
   * `encodeJsonToBase64Url`.
   */
  method DecodeBase64UrlToJson(base64url: string, utf8Decode: seq<byte> -> string)
    returns (r: Result<string, AtobError>)
    ensures forall json, utf8Encode :: EncodeJsonToBase64Url(json, utf8Encode) == base64url ==>
      r == Ok(utf8Decode(utf8Encode(json)))
  {
    var bytes := FromBase64Url(base64url);
    match bytes
    case Err(e) => r := Err(e);
    case Ok(b) => r := Ok(utf8Decode(b));
  }

  // ---------------------------------------------------------------------------
  // Properties
  // ---------------------------------------------------------------------------

  /** The encoder's output uses only the URL-safe alphabet: no '+', '/' or '='. */
  lemma ToBase64UrlAlphabet(bytes: seq<byte>)
    ensures forall i :: 0 <= i < |ToBase64Url(bytes)| ==>
      IsUrlChar(ToBase64Url(bytes)[i]) && ToBase64Url(bytes)[i] !in "+/="
  {
    UrlBodyIsStripped(bytes);
  }

  /** The URL-safe text of the characters before the padding. */
  function UrlBody(bytes: seq<byte>): string
  {
    ReplaceAll(ReplaceAll(EncodeBody(bytes), '+', '-'), '/', '_')
  }

  lemma UrlBodyIsStripped(bytes: seq<byte>)
    ensures ToBase64Url(bytes) == UrlBody(bytes)
    ensures forall i :: 0 <= i < |UrlBody(bytes)| ==> IsUrlChar(UrlBody(bytes)[i])
  {
    var body := EncodeBody(bytes);
    var pads := RepeatEquals(PadCount(|bytes|));
    assert CodeUnits(BinaryString(bytes)) == bytes;
    assert Btoa(BinaryString(bytes)) == body + pads;
    var mapped := ReplaceAll(ReplaceAll(body + pads, '+', '-'), '/', '_');
    var ub := UrlBody(bytes);
    assert mapped == ub + pads;
    StripPads(ub, pads);
  }

  /** Stripping trailing '=' from text without '=' followed by padding leaves the text. */
  lemma StripPads(x: string, pads: string)
    requires forall i :: 0 <= i < |x| ==> x[i] != '='
    requires forall i :: 0 <= i < |pads| ==> pads[i] == '='
    ensures StripTrailingEquals(x + pads) == x
    decreases |pads|
  {
    if pads == [] {
      assert x + pads == x;
      if x != [] {
        assert x[|x| - 1] != '=';
      }
    } else {
      var init := pads[..|pads| - 1];
      assert (x + pads)[..|x + pads| - 1] == x + init;
      StripPads(x, init);
    }
  }

  /** The replacements '-'→'+' and '_'→'/' undo '+'→'-' and '/'→'_' on text holding neither '-' nor '_'. */
  lemma ReplacementsInverse(s: string)
    requires forall i :: 0 <= i < |s| ==> s[i] != '-' && s[i] != '_'
    ensures UrlToStd(ReplaceAll(ReplaceAll(s, '+', '-'), '/', '_')) == s
  {
  }

  /** The replacements '+'→'-' and '/'→'_' undo '-'→'+' and '_'→'/' on text holding neither '+' nor '/'. */
  lemma ReplacementsInverseUrl(s: string)
    requires forall i :: 0 <= i < |s| ==> s[i] != '+' && s[i] != '/'
    ensures ReplaceAll(ReplaceAll(UrlToStd(s), '+', '-'), '/', '_') == s
  {
  }

  /** Three bytes survive encoding to four characters and decoding back. */
  lemma GroupOfThree(x: byte, y: byte, z: byte)
    ensures DecodeQuad(EncodeTriple(x, y, z)) == [x, y, z]
  {
    var a, b, c := x as int, y as int, z as int;
    SextetOfStdChar(a / 4);
    SextetOfStdChar((a % 4) * 16 + b / 16);
    SextetOfStdChar((b % 16) * 4 + c / 64);
    SextetOfStdChar(c % 64);
    HighSextets(a, b);
    MiddleSextets(a, b, c);
    LowSextets(b, c);
  }

  /** The first byte is the first sextet and the top two bits of the second. */
  lemma HighSextets(a: int, b: int)
    requires 0 <= a < 256 && 0 <= b < 256
    ensures (a / 4) * 4 + ((a % 4) * 16 + b / 16) / 16 == a
  {
    assert ((a % 4) * 16 + b / 16) / 16 == a % 4;
  }

  /** The second byte is the low four bits of the second sextet and the top four of the third. */
  lemma MiddleSextets(a: int, b: int, c: int)
    requires 0 <= a < 256 && 0 <= b < 256 && 0 <= c < 256
    ensures (((a % 4) * 16 + b / 16) % 16) * 16 + ((b % 16) * 4 + c / 64) / 4 == b
  {
    assert ((a % 4) * 16 + b / 16) % 16 == b / 16;
    assert ((b % 16) * 4 + c / 64) / 4 == b % 16;
  }

  /** The third byte is the low two bits of the third sextet and the fourth. */
  lemma LowSextets(b: int, c: int)
    requires 0 <= b < 256 && 0 <= c < 256
    ensures (((b % 16) * 4 + c / 64) % 4) * 64 + c % 64 == c
  {
    assert ((b % 16) * 4 + c / 64) % 4 == c / 64;
  }

  /** Two bytes survive encoding to three characters and decoding back. */
  lemma GroupOfTwo(x: byte, y: byte)
    ensures DecodeTrio(EncodePair(x, y)) == [x, y]
  {
    var a, b := x as int, y as int;
    SextetOfStdChar(a / 4);
    SextetOfStdChar((a % 4) * 16 + b / 16);
    SextetOfStdChar((b % 16) * 4);
  }

  /** One byte survives encoding to two characters and decoding back. */
  lemma GroupOfOne(x: byte)
    ensures DecodeDuo(EncodeSingle(x)) == [x]
  {
    var a := x as int;
    SextetOfStdChar(a / 4);
    SextetOfStdChar((a % 4) * 16);
  }

  /** Decoding a full group followed by more text decodes the group, then the rest. */
  lemma DecodeBodyCons(g: string, rest: string)
    requires |g| == 4 && AllStd(g) && AllStd(rest) && |rest| % 4 != 1
    ensures AllStd(g + rest) && |g + rest| % 4 != 1
    ensures DecodeBody(g + rest) == DecodeQuad(g) + DecodeBody(rest)
  {
    var e := g + rest;
    assert e[..4] == g && e[4..] == rest;
  }

  /** Decoding the characters of the groups gives back the bytes. */
  lemma {:induction false} DecodeEncodeBody(b: seq<byte>)
    requires |EncodeBody(b)| % 4 != 1
    ensures DecodeBody(EncodeBody(b)) == b
  {
    if |b| >= 3 {
      BodyLengthPadding(|b[3..]|);
      DecodeEncodeBody(b[3..]);
      DecodeEncodeStep(b);
    } else if |b| == 2 {
      GroupOfTwo(b[0], b[1]);
    } else if |b| == 1 {
      GroupOfOne(b[0]);
    }
  }

  /** A full group of three bytes in front of text that decodes back also decodes back. */
  lemma DecodeEncodeStep(b: seq<byte>)
    requires |b| >= 3 && |EncodeBody(b)| % 4 != 1 && |EncodeBody(b[3..])| % 4 != 1
    requires DecodeBody(EncodeBody(b[3..])) == b[3..]
    ensures DecodeBody(EncodeBody(b)) == b
  {
    var g := EncodeTriple(b[0], b[1], b[2]);
    var rest := EncodeBody(b[3..]);
    calc {
      DecodeBody(EncodeBody(b));
      DecodeBody(g + rest);
      { DecodeBodyCons(g, rest); }
      DecodeQuad(g) + DecodeBody(rest);
      { GroupOfThree(b[0], b[1], b[2]); }
      [b[0], b[1], b[2]] + b[3..];
      { ThreeAndRest(b); }
      b;
    }
  }

  lemma ThreeAndRest(b: seq<byte>)
    requires |b| >= 3
    ensures [b[0], b[1], b[2]] + b[3..] == b
  {
  }

  /** Text made of alphabet characters and '=' holds no whitespace, so `atob` keeps all of it. */
  lemma NoWhitespaceInBase64(body: string, pads: string)
    requires AllStd(body) && forall i :: 0 <= i < |pads| ==> pads[i] == '='
    ensures RemoveWhitespace(body + pads) == body + pads
  {
    var t := body + pads;
    forall i | 0 <= i < |t| ensures !IsAsciiWhitespace(t[i]) {
      if i < |body| { assert t[i] == body[i]; } else { assert t[i] == pads[i - |body|]; }
    }
  }

  /** Up to two '=' after alphabet text, completing a multiple of four, are what `atob` removes. */
  lemma DropPaddingOf(body: string, k: nat)
    requires AllStd(body) && k <= 2 && (|body| + k) % 4 == 0
    ensures DropPadding(body + RepeatEquals(k)) == body
  {
    var t := body + RepeatEquals(k);
    if k == 2 {
      assert t[..|t| - 2] == body;
    } else if k == 1 {
      assert t[|t| - 2] == body[|body| - 1];
      assert t[..|t| - 1] == body;
    } else {
      assert t == body;
      if |body| > 0 { assert IsStdChar(body[|body| - 1]); }
    }
  }

  /** The padding of `n` bytes after a body of their length is what `atob` removes. */
  lemma DropPaddingOfLength(body: string, n: nat)
    requires AllStd(body) && |body| == BodyLength(n)
    ensures DropPadding(body + RepeatEquals(PadCount(n))) == body
  {
    BodyLengthPadding(n);
    DropPaddingOf(body, PadCount(n));
  }

  /** `atob` removes exactly the padding that `btoa` added. */
  lemma DropPaddingOfBtoa(b: seq<byte>)
    ensures DropPadding(EncodeBody(b) + RepeatEquals(PadCount(|b|))) == EncodeBody(b)
  {
    DropPaddingOfLength(EncodeBody(b), |b|);
  }

  /** `atob` inverts `btoa`. */
  lemma AtobBtoa(b: seq<byte>)
    ensures Atob(EncodeBody(b) + RepeatEquals(PadCount(|b|))) == Ok(BinaryString(b))
  {
    NoWhitespaceInBase64(EncodeBody(b), RepeatEquals(PadCount(|b|)));
    DropPaddingOfBtoa(b);
    BodyLengthPadding(|b|);
    DecodeEncodeBody(b);
  }

  /** Re-padding the URL-safe text of a byte sequence gives back exactly the output of `btoa`. */
  lemma RepaddedIsBtoa(b: seq<byte>)
    ensures Repadded(ToBase64Url(b)) == EncodeBody(b) + RepeatEquals(PadCount(|b|))
  {
    StandardOfUrl(b);
    RestoredPaddingOfBody(|b|);
  }

  /** Undoing the URL replacements on the URL-safe text gives the unpadded output of `btoa`. */
  lemma StandardOfUrl(b: seq<byte>)
    ensures UrlToStd(ToBase64Url(b)) == EncodeBody(b)
  {
    var body := EncodeBody(b);
    UrlBodyIsStripped(b);
    assert forall i :: 0 <= i < |body| ==> body[i] != '-' && body[i] != '_';
    ReplacementsInverse(body);
  }

  /** Decoding restores every byte sequence that was encoded. */
  lemma RoundTrip(b: seq<byte>)
    ensures Atob(Repadded(ToBase64Url(b))) == Ok(BinaryString(b))
  {
    RepaddedIsBtoa(b);
    AtobBtoa(b);
  }

  /** A URL-safe text of length 1 modulo 4 gets three '=' back, and `atob` rejects it. */
  lemma ThreeMissingCharactersFail(s: string)
    requires |s| % 4 == 1
    requires forall i :: 0 <= i < |s| ==> !IsAsciiWhitespace(s[i])
    ensures RestoredPadding(|s|) == 3
    ensures Atob(Repadded(s)).Err?
  {
    var p := Repadded(s);
    assert RemoveWhitespace(p) == p by {
      forall i | 0 <= i < |p| ensures !IsAsciiWhitespace(p[i]) {
        if i < |s| { assert p[i] == UrlToStd(s)[i]; }
      }
    }
    var u := DropPadding(p);
    assert u == p[..|p| - 2];
    assert u[|u| - 1] == '=';
  }
}
