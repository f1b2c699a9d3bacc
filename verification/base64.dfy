/** The base64 alphabet and encoding of section 4 of RFC 4648, as the browser's `btoa` applies it
    to a binary string, and the "forgiving-base64 decode" of the WHATWG Infra standard, which is
    what `atob` applies. Bytes are the character codes of a binary string. */
module Base64 {
  import opened Values

  type Byte = b: int | 0 <= b < 256
  type Sextet = s: int | 0 <= s < 64

  // ---------------------------------------------------------------------------------------------
  // The alphabet (RFC 4648, section 4, table 1)

  function SextetChar(v: Sextet): (c: char)
  {
    if v < 26 then ('A' as int + v) as char
    else if v < 52 then ('a' as int + v - 26) as char
    else if v < 62 then ('0' as int + v - 52) as char
    else if v == 62 then '+'
    else '/'
  }

  predicate IsBase64Char(c: char)
  {
    'A' <= c <= 'Z' || 'a' <= c <= 'z' || '0' <= c <= '9' || c == '+' || c == '/'
  }

  function CharSextet(c: char): Sextet
    requires IsBase64Char(c)
  {
    if 'A' <= c <= 'Z' then c as int - 'A' as int
    else if 'a' <= c <= 'z' then c as int - 'a' as int + 26
    else if '0' <= c <= '9' then c as int - '0' as int + 52
    else if c == '+' then 62
    else 63
  }

  /** Every sextet has a character of the alphabet, and that character reads back as the sextet. */
  lemma SextetRoundTrip(v: Sextet)
    ensures IsBase64Char(SextetChar(v)) && CharSextet(SextetChar(v)) == v
  {
  }

  // ---------------------------------------------------------------------------------------------
  // Encoding

  /** Three bytes as four characters. */
  function Quad(a: Byte, b: Byte, c: Byte): (s: string)
    ensures |s| == 4
  {
    [SextetChar(a / 4), SextetChar((a % 4) * 16 + b / 16), SextetChar((b % 16) * 4 + c / 64), SextetChar(c % 64)]
  }

  /** The characters of the encoding without its `=` padding: four per full group of three bytes,
      then two for a final single byte and three for a final pair, the unused bits zero. */
  function Raw(bs: seq<Byte>): (s: string)
    ensures |s| % 4 != 1
    ensures forall i | 0 <= i < |s| :: IsBase64Char(s[i])
  {
    if |bs| == 0 then ""
    else if |bs| == 1 then
      SextetRoundTrip(bs[0] / 4);
      SextetRoundTrip((bs[0] % 4) * 16);
      [SextetChar(bs[0] / 4), SextetChar((bs[0] % 4) * 16)]
    else if |bs| == 2 then
      SextetRoundTrip(bs[0] / 4);
      SextetRoundTrip((bs[0] % 4) * 16 + bs[1] / 16);
      SextetRoundTrip((bs[1] % 16) * 4);
      [SextetChar(bs[0] / 4), SextetChar((bs[0] % 4) * 16 + bs[1] / 16), SextetChar((bs[1] % 16) * 4)]
    else
      var rest := Raw(bs[3..]);
      QuadChars(bs[0], bs[1], bs[2]);
      FourMoreMod(|rest|);
      Quad(bs[0], bs[1], bs[2]) + rest
  }

  lemma FourMoreMod(n: nat)
    ensures (4 + n) % 4 == n % 4
  {
  }

  lemma QuadChars(a: Byte, b: Byte, c: Byte)
    ensures forall i | 0 <= i < 4 :: IsBase64Char(Quad(a, b, c)[i])
  {
    SextetRoundTrip(a / 4);
    SextetRoundTrip((a % 4) * 16 + b / 16);
    SextetRoundTrip((b % 16) * 4 + c / 64);
    SextetRoundTrip(c % 64);
  }

  /** `=` padding up to a multiple of four characters. */
  function Padding(n: nat): string
  {
    if n % 3 == 1 then "==" else if n % 3 == 2 then "=" else ""
  }

  /** The base64 encoding of the bytes: its length is always a multiple of four. */
  function Encode(bs: seq<Byte>): (s: string)
    ensures |s| % 4 == 0
    ensures |s| == (|bs| + 2) / 3 * 4
  {
    RawLength(bs);
    PaddedLength(|bs|);
    FourfoldMod((|bs| + 2) / 3);
    Raw(bs) + Padding(|bs|)
  }

  lemma FourfoldMod(k: nat)
    ensures (k * 4) % 4 == 0
  {
  }

  /** The padding completes the last group of four. */
  lemma PaddedLength(n: nat)
    ensures n / 3 * 4 + [0, 2, 3][n % 3] + |Padding(n)| == (n + 2) / 3 * 4
  {
    var q, r := n / 3, n % 3;
    assert n + 2 == 3 * q + r + 2;
    assert (n + 2) / 3 == q + (r + 2) / 3;
  }

  lemma {:induction false} RawLength(bs: seq<Byte>)
    ensures |Raw(bs)| == |bs| / 3 * 4 + [0, 2, 3][|bs| % 3]
  {
    if |bs| >= 3 {
      RawLength(bs[3..]);
    }
  }

  // ---------------------------------------------------------------------------------------------
  // Forgiving decoding

  /** ASCII white space: tab, line feed, form feed, carriage return and space. */
  predicate IsAsciiWhitespace(c: char)
  {
    c == '\t' || c == '\n' || c == '\U{000C}' || c == '\r' || c == ' '
  }

  function StripWhitespace(s: string): (r: string)
    ensures |r| <= |s|
  {
    if |s| == 0 then ""
    else if IsAsciiWhitespace(s[0]) then StripWhitespace(s[1..])
    else [s[0]] + StripWhitespace(s[1..])
  }

  /** With a length divisible by four, one or two final `=` are removed. */
  function Unpadded(s: string): string
  {
    if |s| % 4 == 0 && |s| >= 2 && s[|s| - 2..] == "==" then s[..|s| - 2]
    else if |s| % 4 == 0 && |s| >= 1 && s[|s| - 1] == '=' then s[..|s| - 1]
    else s
  }

  /** Four sextets as three bytes. */
  function Bytes3(s0: Sextet, s1: Sextet, s2: Sextet, s3: Sextet): seq<Byte>
  {
    [s0 * 4 + s1 / 16, (s1 % 16) * 16 + s2 / 4, (s2 % 4) * 64 + s3]
  }

  /** Four characters as three bytes. */
  function DecodeQuad(s: string): (bs: seq<Byte>)
    requires |s| == 4 && forall i | 0 <= i < 4 :: IsBase64Char(s[i])
  {
    Bytes3(CharSextet(s[0]), CharSextet(s[1]), CharSextet(s[2]), CharSextet(s[3]))
  }

  /** The bytes of unpadded characters: each full group of four gives three bytes; two or three
      final characters give one or two bytes, the leftover bits dropped. */
  function DecodeChars(s: string): (bs: seq<Byte>)
    requires |s| % 4 != 1 && forall i | 0 <= i < |s| :: IsBase64Char(s[i])
  {
    if |s| == 0 then []
    else if |s| == 2 then
      [CharSextet(s[0]) * 4 + CharSextet(s[1]) / 16]
    else if |s| == 3 then
      [CharSextet(s[0]) * 4 + CharSextet(s[1]) / 16, (CharSextet(s[1]) % 16) * 16 + CharSextet(s[2]) / 4]
    else DecodeQuad(s[..4]) + DecodeChars(s[4..])
  }

  /** `atob(s)`: white space is ignored, padding is optional, and `None` is the exception thrown
      for a length that leaves one character over or for a character outside the alphabet. */
  function ForgivingDecode(s: string): (r: Option<seq<Byte>>)
    ensures r.Some? <==> var t := Unpadded(StripWhitespace(s));
                         |t| % 4 != 1 && forall i | 0 <= i < |t| :: IsBase64Char(t[i])
  {
    var t := Unpadded(StripWhitespace(s));
    if |t| % 4 == 1 || exists i | 0 <= i < |t| :: !IsBase64Char(t[i]) then None
    else Some(DecodeChars(t))
  }

  // ---------------------------------------------------------------------------------------------
  // Round trip

  /** Regrouping the sextets of three bytes gives the bytes back. */
  lemma RegroupBytes3(a: Byte, b: Byte, c: Byte)
    ensures Bytes3(a / 4, (a % 4) * 16 + b / 16, (b % 16) * 4 + c / 64, c % 64) == [a, b, c]
  {
    assert ((a % 4) * 16 + b / 16) / 16 == a % 4;
    assert ((a % 4) * 16 + b / 16) % 16 == b / 16;
    assert ((b % 16) * 4 + c / 64) / 4 == b % 16;
    assert ((b % 16) * 4 + c / 64) % 4 == c / 64;
  }

  lemma DecodeQuadOf(a: Byte, b: Byte, c: Byte)
    ensures forall i | 0 <= i < 4 :: IsBase64Char(Quad(a, b, c)[i])
    ensures DecodeQuad(Quad(a, b, c)) == [a, b, c]
  {
    QuadChars(a, b, c);
    var q := Quad(a, b, c);
    SextetRoundTrip(a / 4);
    SextetRoundTrip((a % 4) * 16 + b / 16);
    SextetRoundTrip((b % 16) * 4 + c / 64);
    SextetRoundTrip(c % 64);
    assert DecodeQuad(q) == Bytes3(a / 4, (a % 4) * 16 + b / 16, (b % 16) * 4 + c / 64, c % 64);
    RegroupBytes3(a, b, c);
  }

  /** Decoding the unpadded characters gives the bytes back. */
  lemma {:induction false} DecodeRaw(bs: seq<Byte>)
    ensures DecodeChars(Raw(bs)) == bs
  {
    if |bs| == 1 {
      DecodeSingle(bs[0]);
      assert bs == [bs[0]];
    } else if |bs| == 2 {
      DecodePair(bs[0], bs[1]);
      assert bs == [bs[0], bs[1]];
    } else if |bs| >= 3 {
      RawGroup(bs);
      HeadThree(bs);
      DecodeQuadOf(bs[0], bs[1], bs[2]);
      DecodeRaw(bs[3..]);
    }
  }

  /** The first group of four characters encodes the first three bytes, the rest the rest. */
  lemma RawGroup(bs: seq<Byte>)
    requires |bs| >= 3
    ensures Raw(bs)[..4] == Quad(bs[0], bs[1], bs[2]) && Raw(bs)[4..] == Raw(bs[3..])
  {
    var q, r := Quad(bs[0], bs[1], bs[2]), Raw(bs[3..]);
    assert Raw(bs) == q + r;
    assert (q + r)[..4] == q;
    assert (q + r)[4..] == r;
  }

  lemma HeadThree<T>(xs: seq<T>)
    requires |xs| >= 3
    ensures xs == [xs[0], xs[1], xs[2]] + xs[3..]
  {
    assert forall i | 0 <= i < |xs| :: xs[i] == ([xs[0], xs[1], xs[2]] + xs[3..])[i];
  }

  lemma DecodeSingle(a: Byte)
    ensures DecodeChars(Raw([a])) == [a]
  {
    SextetRoundTrip(a / 4);
    SextetRoundTrip((a % 4) * 16);
    var s := Raw([a]);
    assert CharSextet(s[0]) == a / 4 && CharSextet(s[1]) == (a % 4) * 16;
    assert ((a % 4) * 16) / 16 == a % 4;
  }

  lemma DecodePair(a: Byte, b: Byte)
    ensures DecodeChars(Raw([a, b])) == [a, b]
  {
    SextetRoundTrip(a / 4);
    SextetRoundTrip((a % 4) * 16 + b / 16);
    SextetRoundTrip((b % 16) * 4);
    var s := Raw([a, b]);
    assert CharSextet(s[0]) == a / 4 && CharSextet(s[1]) == (a % 4) * 16 + b / 16;
    assert CharSextet(s[2]) == (b % 16) * 4;
    assert ((a % 4) * 16 + b / 16) / 16 == a % 4;
    assert ((a % 4) * 16 + b / 16) % 16 == b / 16;
    assert ((b % 16) * 4) / 4 == b % 16;
  }

  lemma {:induction false} StripNoWhitespace(s: string)
    requires forall i | 0 <= i < |s| :: !IsAsciiWhitespace(s[i])
    ensures StripWhitespace(s) == s
  {
    if |s| > 0 {
      StripNoWhitespace(s[1..]);
    }
  }

  /** No character of an encoding is white space. */
  lemma EncodeNoWhitespace(bs: seq<Byte>)
    ensures forall i | 0 <= i < |Encode(bs)| :: !IsAsciiWhitespace(Encode(bs)[i])
  {
    var raw, e := Raw(bs), Encode(bs);
    forall i | 0 <= i < |e| ensures !IsAsciiWhitespace(e[i]) {
      if i < |raw| { assert e[i] == raw[i]; }
    }
  }

  /** Removing the padding of an encoding leaves the unpadded characters. */
  lemma UnpaddedEncode(bs: seq<Byte>)
    ensures Unpadded(Encode(bs)) == Raw(bs)
  {
    var raw, e := Raw(bs), Encode(bs);
    assert e == raw + Padding(|bs|);
    if |bs| % 3 == 0 {
      assert e == raw;
      UnpaddedPlain(raw);
    } else {
      RawLength(bs);
      assert |raw| > 0;
      if |bs| % 3 == 1 {
        UnpaddedTwo(raw);
      } else {
        UnpaddedOne(raw);
      }
    }
  }

  /** A text that does not end in `=` has no padding to remove. */
  lemma UnpaddedPlain(s: string)
    requires |s| == 0 || IsBase64Char(s[|s| - 1])
    ensures Unpadded(s) == s
  {
    if |s| >= 2 {
      assert s[|s| - 2..][1] == s[|s| - 1];
    }
  }

  lemma UnpaddedTwo(raw: string)
    requires |raw + "=="| % 4 == 0
    ensures Unpadded(raw + "==") == raw
  {
    var s := raw + "==";
    assert s[|s| - 2..] == "==";
    assert s[..|s| - 2] == raw;
  }

  lemma UnpaddedOne(raw: string)
    requires |raw + "="| % 4 == 0 && |raw| > 0 && IsBase64Char(raw[|raw| - 1])
    ensures Unpadded(raw + "=") == raw
  {
    var s := raw + "=";
    assert s[|s| - 2] == raw[|raw| - 1];
    assert s[|s| - 2..] != "==" by { assert s[|s| - 2..][0] == s[|s| - 2]; }
    assert s[..|s| - 1] == raw;
  }

  /** `atob(btoa(x)) === x`: decoding an encoding gives the bytes back. */
  lemma DecodeEncode(bs: seq<Byte>)
    ensures ForgivingDecode(Encode(bs)) == Some(bs)
  {
    EncodeNoWhitespace(bs);
    StripNoWhitespace(Encode(bs));
    UnpaddedEncode(bs);
    DecodeRaw(bs);
  }
}
