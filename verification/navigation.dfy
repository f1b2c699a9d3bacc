/** The URL parameter converters of the frontend's navigation helpers: the string, JSON-map and
    string-set converters, and the hexadecimal/base64 transcoding behind the bit-set converter.
    A parameter that is absent or `null` in the URL is `None`. */
module Navigation {
  import opened Strings
  import opened Values
  import GeneralHelpers
  import Base64

  // ---------------------------------------------------------------------------------------------
  // string

  /** The string converter's `encode`: `${value}`. */
  function StringEncode(v: Value): string
  {
    ToText(v)
  }

  /** The string converter's `decode`: the parameter as it is. */
  function StringDecode(s: string): string
  {
    s
  }

  /** A string survives encoding and decoding. */
  lemma StringRoundTrip(s: string)
    ensures StringDecode(StringEncode(Str(s))) == s
  {
  }

  // ---------------------------------------------------------------------------------------------
  // json

  /** The JSON converter's `encode`: `JSON.stringify`, which gives `undefined` (no parameter) for
      `undefined`. */
  function JsonEncode(v: Value): (r: Option<string>)
    ensures r.None? <==> v.Undefined?
    ensures r.Some? ==> Printable(r.value)
  {
    if v.Undefined? then None
    else
      JsonPrintable(v);
      Some(JsonText(v))
  }

  /** The JSON converter's `decode`: `JSON.parse` (the parameter `parse`) of the parameter, even
      when it is empty. */
  function JsonDecode(input: string, parse: string -> Try<Value>): (r: Try<Value>)
    ensures r == parse(input)
  {
    parse(input)
  }

  // ---------------------------------------------------------------------------------------------
  // Converter selection

  /** The six named converters; the string-set converter carries its separator. */
  datatype Converter =
    | StringConverter
    | JsonConverter
    | JsonMapConverter
    | StringSetConverter(separator: string)
    | BitSetConverter
    | NumberConverter

  /** The `converter` option of a feature: a converter name, or a converter object. */
  datatype ConverterOption = ByName(name: string) | ByObject(converter: Converter)

  function ConverterName(c: Converter): string
  {
    match c
    case StringConverter => "string"
    case JsonConverter => "json"
    case JsonMapConverter => "jsonMap"
    case StringSetConverter(_) => "stringSet"
    case BitSetConverter => "bitSet"
    case NumberConverter => "number"
  }

  /** `selectConverter`: a name picks the named converter with its default arguments (the string-set
      separator is `_`); an unknown name is not a function and calling it throws; an object is used
      as it is. */
  function SelectConverter(option: ConverterOption): (r: Try<Converter>)
    ensures option.ByObject? ==> r == Ok(option.converter)
    ensures option.ByName? ==>
              (r.Ok? <==> option.name in ["string", "json", "jsonMap", "stringSet", "bitSet", "number"])
    ensures option.ByName? && r.Ok? ==> ConverterName(r.value) == option.name
    ensures r == Ok(StringSetConverter("_")) <==> option == ByName("stringSet") || option == ByObject(StringSetConverter("_"))
  {
    match option
    case ByObject(c) => Ok(c)
    case ByName(name) =>
      if name == "string" then Ok(StringConverter)
      else if name == "json" then Ok(JsonConverter)
      else if name == "jsonMap" then Ok(JsonMapConverter)
      else if name == "stringSet" then Ok(StringSetConverter("_"))
      else if name == "bitSet" then Ok(BitSetConverter)
      else if name == "number" then Ok(NumberConverter)
      else Threw(Error("TypeError: converters[converter] is not a function"))
  }

  // ---------------------------------------------------------------------------------------------
  // jsonMap

  /** The JSON-map converter's `encode`: JSON text, or `null` for an object without keys. */
  function JsonMapEncode(ps: seq<Prop>): (r: Option<string>)
    ensures r.None? <==> |ps| == 0
    ensures r.Some? ==> Json(Obj(ps)) == r
  {
    if |ps| == 0 then None else Some(JsonText(Obj(ps)))
  }

  /** The JSON-map converter's `decode`: a truthy parameter is parsed (`JSON.parse` is the
      parameter `parse`, which may throw); `null` or an empty parameter gives the fallback. */
  function JsonMapDecode(input: Option<string>, parse: string -> Try<Value>, fallback: Value): (r: Try<Value>)
    ensures input.None? || input.value == "" ==> r == Ok(fallback)
    ensures input.Some? && input.value != "" ==> r == parse(input.value)
  {
    if input.Some? && |input.value| > 0 then parse(input.value) else Ok(fallback)
  }

  /** An empty map is not written to the URL, and reading it back gives the fallback. */
  lemma JsonMapEmpty(parse: string -> Try<Value>, fallback: Value)
    ensures JsonMapEncode([]) == None
    ensures JsonMapDecode(JsonMapEncode([]), parse, fallback) == Ok(fallback)
  {
  }

  // ---------------------------------------------------------------------------------------------
  // stringSet

  /** The string-set converter's `encode`: the keys joined by the separator, or `null` without keys. */
  function StringSetEncode(ps: seq<Prop>, separator: string): (r: Option<string>)
    ensures r.None? <==> |ps| == 0
    ensures r.Some? ==> r.value == Join(Keys(ps), separator)
  {
    if |ps| == 0 then None else Some(Join(Keys(ps), separator))
  }

  /** `s.split(separator)`: an empty separator splits the text into its characters. */
  function Pieces(s: string, separator: string): seq<string>
  {
    if |separator| == 0 then seq(|s|, i requires 0 <= i < |s| => [s[i]]) else Split(s, separator)
  }

  /** The string-set converter's `decode`: a truthy parameter is split on the separator and every
      piece becomes a key set to `true`; `null` or an empty parameter gives the fallback. */
  function StringSetDecode(input: Option<string>, separator: string, fallback: Value): (r: Value)
    ensures input.None? || input.value == "" ==> r == fallback
    ensures input.Some? && input.value != "" ==>
              r.Obj? && forall k :: (Has(r.props, k) <==> k in Pieces(input.value, separator)) &&
                                    (Has(r.props, k) ==> Get(r.props, k) == Bool(true))
  {
    if input.Some? && |input.value| > 0 then
      var marked := GeneralHelpers.Marked(Pieces(input.value, separator));
      assert forall k :: (Has(marked, k) <==> k in Pieces(input.value, separator)) &&
                         (Has(marked, k) ==> Get(marked, k) == Bool(true)) by {
        forall k ensures (Has(marked, k) <==> k in Pieces(input.value, separator)) &&
                         (Has(marked, k) ==> Get(marked, k) == Bool(true)) {
          GeneralHelpers.MarkedKeys(Pieces(input.value, separator), k);
        }
      }
      Obj(marked)
    else fallback
  }

  /** When no key contains the one-character separator and the encoding is not empty, decoding the
      encoding gives an object with exactly the original keys, each set to `true`. */
  lemma StringSetRoundTrip(ps: seq<Prop>, c: char, fallback: Value)
    requires forall i | 0 <= i < |ps| :: !Contains(ps[i].key, c)
    requires StringSetEncode(ps, [c]).Some? && StringSetEncode(ps, [c]).value != ""
    ensures var r := StringSetDecode(StringSetEncode(ps, [c]), [c], fallback);
            r.Obj? && forall k :: (Has(r.props, k) <==> Has(ps, k)) && (Has(r.props, k) ==> Get(r.props, k) == Bool(true))
  {
    var ks := Keys(ps);
    SplitJoin(ks, c);
    forall k ensures Has(ps, k) <==> k in ks {
      KeysHas(ps, k);
    }
  }

  // ---------------------------------------------------------------------------------------------
  // Hexadecimal and base64

  predicate IsHexDigit(c: char)
  {
    '0' <= c <= '9' || 'a' <= c <= 'f' || 'A' <= c <= 'F'
  }

  predicate IsHex(s: string)
  {
    forall i | 0 <= i < |s| :: IsHexDigit(s[i])
  }

  /** `parseInt(c, 16)` of one hexadecimal digit. */
  function HexValue(c: char): (v: nat)
    requires IsHexDigit(c)
    ensures v < 16
  {
    if '0' <= c <= '9' then c as int - '0' as int
    else if 'a' <= c <= 'f' then c as int - 'a' as int + 10
    else c as int - 'A' as int + 10
  }

  /** The lower-case digit `Number.prototype.toString(16)` writes for a value below 16. */
  function LowerHexDigit(d: nat): (c: char)
    requires d < 16
    ensures IsHexDigit(c)
  {
    if d < 10 then ('0' as int + d) as char else ('a' as int + d - 10) as char
  }

  /** An odd-length text is padded with a leading `0`. */
  function EvenPadded(b16: string): (r: string)
    ensures |r| % 2 == 0
    ensures IsHex(b16) ==> IsHex(r)
  {
    if |b16| % 2 == 1 then "0" + b16 else b16
  }

  /** The bytes of consecutive digit pairs. */
  function PairBytes(h: string): (bs: seq<Base64.Byte>)
    requires |h| % 2 == 0 && IsHex(h)
    ensures |bs| == |h| / 2
  {
    if |h| == 0 then []
    else PairBytes(h[..|h| - 2]) + [HexValue(h[|h| - 2]) * 16 + HexValue(h[|h| - 1])]
  }

  /** `base64(b16)` for a hexadecimal text: padded to even length, read pair by pair as bytes and
      base64-encoded. An empty text has no pairs, so `match` returns `null` and `.map` throws. */
  function Base64OfHex(b16: string): (r: Try<string>)
    requires IsHex(b16)
    ensures r.Threw? <==> |b16| == 0
    ensures r.Ok? ==> Base64.ForgivingDecode(r.value) == Some(PairBytes(EvenPadded(b16)))
  {
    if |b16| == 0 then Threw(Error("TypeError: Cannot read properties of null (reading 'map')"))
    else
      Base64.DecodeEncode(PairBytes(EvenPadded(b16)));
      Ok(Base64.Encode(PairBytes(EvenPadded(b16))))
  }

  /** `charCode.toString(16)`: one digit below 16, two from 16 on. */
  function HexText(b: Base64.Byte): (s: string)
    ensures 1 <= |s| <= 2 && (|s| == 2 <==> b >= 16)
  {
    if b < 16 then [LowerHexDigit(b)] else [LowerHexDigit(b / 16), LowerHexDigit(b % 16)]
  }

  /** One byte as the loop writes it: two digits, zero-padded. */
  function HexPair(b: Base64.Byte): (s: string)
    ensures s == [LowerHexDigit(b / 16), LowerHexDigit(b % 16)]
  {
    var pair := HexText(b);
    if |pair| == 2 then pair else "0" + pair
  }

  /** The digits of the bytes, two per byte, in order. */
  function HexOf(bs: seq<Base64.Byte>): (s: string)
    ensures |s| == 2 * |bs| && IsHex(s)
  {
    if |bs| == 0 then "" else HexOf(bs[..|bs| - 1]) + HexPair(bs[|bs| - 1])
  }

  /** What `hex(b64)` returns: the decoded bytes as upper-case digit pairs, or `None` where `atob`
      throws. */
  function HexOfBase64(b64: string): Option<string>
  {
    match Base64.ForgivingDecode(b64)
    case None => None
    case Some(bs) => Some(Upper(HexOf(bs)))
  }

  /** `hex(b64)`: decodes, appends each byte's two digits in a loop, and upper-cases the result. */
  method Hex(b64: string) returns (r: Option<string>)
    ensures r == HexOfBase64(b64)
    ensures r.Some? ==> |r.value| % 2 == 0 && IsHex(r.value)
  {
    var decoded := Base64.ForgivingDecode(b64);
    if decoded.None? {
      return None;
    }
    var charCodes := decoded.value;
    var b16 := "";
    for i := 0 to |charCodes|
      invariant b16 == HexOf(charCodes[..i])
    {
      var pair := HexText(charCodes[i]);
      HexOfPrefix(charCodes, i);
      b16 := b16 + if |pair| == 2 then pair else "0" + pair;
    }
    assert charCodes[..|charCodes|] == charCodes;
    HexUpper(charCodes);
    DoubleIsEven(|charCodes|);
    r := Some(Upper(b16));
  }

  lemma DoubleIsEven(n: nat)
    ensures (2 * n) % 2 == 0
  {
  }

  lemma HexOfPrefix(bs: seq<Base64.Byte>, i: nat)
    requires i < |bs|
    ensures HexOf(bs[..i + 1]) == HexOf(bs[..i]) + HexPair(bs[i])
  {
    assert bs[..i + 1][..i] == bs[..i];
  }

  /** The text `hex` returns for any decoded bytes is a hexadecimal text of two digits per byte. */
  lemma HexUpper(bs: seq<Base64.Byte>)
    ensures var h := Upper(HexOf(bs)); |h| == 2 * |bs| && IsHex(h)
  {
    UpperKeepsHex(HexOf(bs));
  }

  /** Upper-casing keeps a text hexadecimal. */
  lemma UpperKeepsHex(s: string)
    requires IsHex(s)
    ensures IsHex(Upper(s))
  {
    var u := Upper(s);
    forall i | 0 <= i < |u| ensures IsHexDigit(u[i]) {
      assert u[i] == UpperChar(s[i]) && IsHexDigit(s[i]);
    }
  }

  /** A digit read as a value and written back in lower case is the same digit up to case. */
  lemma DigitBack(c: char)
    requires IsHexDigit(c)
    ensures UpperChar(LowerHexDigit(HexValue(c))) == UpperChar(c)
  {
  }

  lemma UpperAppend(a: string, b: string)
    ensures Upper(a + b) == Upper(a) + Upper(b)
  {
    assert forall i | 0 <= i < |a + b| :: Upper(a + b)[i] == (Upper(a) + Upper(b))[i];
  }

  /** Two digits read as one byte and written back give the digits, up to case. */
  lemma PairBack(x: char, y: char)
    requires IsHexDigit(x) && IsHexDigit(y)
    ensures Upper(HexPair(HexValue(x) * 16 + HexValue(y))) == Upper([x, y])
  {
    var v := HexValue(x) * 16 + HexValue(y);
    assert v / 16 == HexValue(x) && v % 16 == HexValue(y);
    DigitBack(x);
    DigitBack(y);
  }

  lemma LastTwo(h: string)
    requires |h| >= 2
    ensures h == h[..|h| - 2] + [h[|h| - 2], h[|h| - 1]]
  {
  }

  /** The bytes of the last digit pair add that pair's digits, up to case. */
  lemma LastPair(h: string)
    requires |h| >= 2 && |h| % 2 == 0 && IsHex(h)
    ensures IsHex(h[..|h| - 2])
    ensures Upper(HexOf(PairBytes(h))) == Upper(HexOf(PairBytes(h[..|h| - 2]))) + Upper([h[|h| - 2], h[|h| - 1]])
  {
    var x, y := h[|h| - 2], h[|h| - 1];
    var init := h[..|h| - 2];
    assert IsHex(init) by {
      forall i | 0 <= i < |init| ensures IsHexDigit(init[i]) { assert init[i] == h[i]; }
    }
    var v := HexValue(x) * 16 + HexValue(y);
    var bs := PairBytes(h);
    assert bs[..|bs| - 1] == PairBytes(init) && bs[|bs| - 1] == v;
    var front := HexOf(PairBytes(init));
    assert HexOf(bs) == front + HexPair(v);
    PairBack(x, y);
    UpperAppend(front, HexPair(v));
    calc {
      Upper(HexOf(bs));
      Upper(front + HexPair(v));
      Upper(front) + Upper(HexPair(v));
      Upper(front) + Upper([x, y]);
    }
  }

  /** Writing the bytes of the digit pairs gives the digits back, up to case. */
  lemma {:induction false} HexOfPairs(h: string)
    requires |h| % 2 == 0 && IsHex(h)
    ensures Upper(HexOf(PairBytes(h))) == Upper(h)
  {
    if |h| > 0 {
      var init := h[..|h| - 2];
      LastTwo(h);
      LastPair(h);
      HexOfPairs(init);
      UpperAppend(init, [h[|h| - 2], h[|h| - 1]]);
    }
  }

  /** For a non-empty hexadecimal text, `hex(base64(h))` is `h` padded to even length and in upper
      case. */
  lemma HexBase64RoundTrip(h: string)
    requires |h| > 0 && IsHex(h)
    ensures Base64OfHex(h).Ok?
    ensures HexOfBase64(Base64OfHex(h).value) == Some(Upper(EvenPadded(h)))
  {
    HexOfPairs(EvenPadded(h));
  }
}
