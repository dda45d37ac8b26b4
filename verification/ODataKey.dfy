/** Addressing one record by its alternate key: the URL the client builds, and what a server
    written from the standards reads back from it. The URL is read as RFC 3986 and section 2 of
    OData Version 4.0 Part 2: URL Conventions prescribe: split the undecoded path at the slashes,
    then percent-decode the segment, then parse it. */
module ODataKey {
  import opened Wrappers
  import Utf8

  type Byte = Utf8.Byte

  datatype Endpoint = Endpoint(baseUrl: string, entitySet: string, keyName: string)

  // ---- The client ----

  /** Section 2.3 of RFC 3986: what percent-encoding with nothing marked safe leaves alone. */
  predicate Unreserved(c: char) {
    'a' <= c <= 'z' || 'A' <= c <= 'Z' || '0' <= c <= '9' || c == '_' || c == '.' || c == '-' || c == '~'
  }

  function EscapeQuotes(s: string): string {
    if s == "" then "" else (if s[0] == '\'' then "''" else [s[0]]) + EscapeQuotes(s[1..])
  }

  function HexDigit(n: int): (c: char)
    requires 0 <= n < 16
  {
    if n < 10 then '0' + n as char else 'A' + (n - 10) as char
  }

  function PercentEncode(bs: seq<Byte>): string {
    if bs == [] then ""
    else
      var c := bs[0] as int as char;
      (if Unreserved(c) then [c] else ['%', HexDigit(bs[0] as int / 16), HexDigit(bs[0] as int % 16)])
      + PercentEncode(bs[1..])
  }

  function EncodeKey(key: string): string {
    PercentEncode(Utf8.Encode(EscapeQuotes(key)))
  }

  function Predicate(ep: Endpoint, body: string): string {
    ep.entitySet + "(" + ep.keyName + "='" + body + "')"
  }

  function EntityPath(ep: Endpoint, key: string): string {
    Predicate(ep, EncodeKey(key))
  }

  function EntityUrl(ep: Endpoint, key: string): string {
    ep.baseUrl + "/" + EntityPath(ep, key)
  }

  // ---- The server ----

  function HexValue(c: char): Option<int> {
    if '0' <= c <= '9' then Some(c as int - '0' as int)
    else if 'A' <= c <= 'F' then Some(c as int - 'A' as int + 10)
    else if 'a' <= c <= 'f' then Some(c as int - 'a' as int + 10)
    else None
  }

  function HexPair(hi: char, lo: char): Option<Byte> {
    match (HexValue(hi), HexValue(lo))
    case (Some(h), Some(l)) => if 0 <= h * 16 + l < 256 then Some((h * 16 + l) as Byte) else None
    case _ => None
  }

  /** Section 2.1 of RFC 3986; a malformed triple or a character outside ASCII is refused. */
  function PercentDecode(s: string): Option<seq<Byte>> {
    if s == "" then Some([])
    else if s[0] == '%' then
      if |s| < 3 then None
      else
        match (HexPair(s[1], s[2]), PercentDecode(s[3..]))
        case (Some(b), Some(rest)) => Some([b] + rest)
        case _ => None
    else if s[0] as int >= 128 then None
    else
      match PercentDecode(s[1..])
      case Some(rest) => Some([s[0] as int as Byte] + rest)
      case None => None
  }

  /** What follows the opening quote of a string literal: `SQUOTE-in-string` is a doubled quote,
      and the first quote that is not doubled must be the last character. */
  function ReadString(s: string): Option<string> {
    if s == "" then None
    else if s == "'" then Some("")
    else if s[0] == '\'' then
      if s[1] != '\'' then None
      else
        match ReadString(s[2..])
        case Some(rest) => Some("'" + rest)
        case None => None
    else
      match ReadString(s[1..])
      case Some(rest) => Some([s[0]] + rest)
      case None => None
  }

  function IndexOf(s: string, c: char): (r: Option<nat>)
    ensures r.Some? ==> r.value < |s|
  {
    if s == "" then None
    else if s[0] == c then Some(0)
    else
      match IndexOf(s[1..], c)
      case Some(i) => Some(i + 1)
      case None => None
  }

  datatype Addressed = Addressed(entitySet: string, keyName: string, key: string)

  /** Splits `text` at the first `c`. */
  function Cut(text: string, c: char): Option<(string, string)> {
    match IndexOf(text, c)
    case Some(i) => Some((text[..i], text[i + 1..]))
    case None => None
  }

  /** A decoded segment of the form `set(name='literal')`. */
  function ParseSegment(segment: string): Option<Addressed> {
    match Cut(segment, '(')
    case None => None
    case Some((entitySet, keyPredicate)) =>
      match Cut(keyPredicate, '=')
      case None => None
      case Some((keyName, literal)) =>
        if |literal| < 3 || literal[0] != '\'' || literal[|literal| - 1] != ')' then None
        else
          match ReadString(literal[1..|literal| - 1])
          case Some(key) => Some(Addressed(entitySet, keyName, key))
          case None => None
  }

  /** No character that ends a path segment, a path or a URL's path part. */
  predicate OneSegment(path: string) {
    '/' !in path && '?' !in path && '#' !in path
  }

  function ReadSegment(path: string): Option<Addressed> {
    if !OneSegment(path) then None
    else
      match PercentDecode(path)
      case None => None
      case Some(octets) =>
        match Utf8.Decode(octets)
        case None => None
        case Some(segment) => ParseSegment(segment)
  }

  /** The record a request for `url` addresses, if it addresses one of this endpoint's. */
  function Resolve(ep: Endpoint, url: string): Option<string> {
    var root := ep.baseUrl + "/";
    if !(root <= url) then None
    else
      match ReadSegment(url[|root|..])
      case Some(Addressed(entitySet, keyName, key)) =>
        if entitySet == ep.entitySet && keyName == ep.keyName then Some(key) else None
      case None => None
  }

  // ---- Proofs ----

  predicate Plain(name: string) {
    forall i | 0 <= i < |name| :: Unreserved(name[i])
  }

  /** Schema names are plain: letters, digits and underscores in every shipped configuration. */
  predicate PlainNames(ep: Endpoint) {
    Plain(ep.entitySet) && Plain(ep.keyName)
  }

  lemma HexRoundTrip(b: Byte)
    ensures HexPair(HexDigit(b as int / 16), HexDigit(b as int % 16)) == Some(b)
  {
    var h, l := b as int / 16, b as int % 16;
    assert HexValue(HexDigit(h)) == Some(h);
    assert HexValue(HexDigit(l)) == Some(l);
    assert h * 16 + l == b as int;
  }

  lemma {:induction false} DecodeRaw(c: char, rest: string)
    requires c != '%' && c as int < 128 && PercentDecode(rest).Some?
    ensures PercentDecode([c] + rest) == Some([c as int as Byte] + PercentDecode(rest).value)
  {
    assert ([c] + rest)[1..] == rest;
  }

  lemma {:induction false} DecodeTriple(b: Byte, rest: string)
    requires PercentDecode(rest).Some?
    ensures PercentDecode(['%', HexDigit(b as int / 16), HexDigit(b as int % 16)] + rest)
         == Some([b] + PercentDecode(rest).value)
  {
    HexRoundTrip(b);
    var whole := ['%', HexDigit(b as int / 16), HexDigit(b as int % 16)] + rest;
    assert whole[3..] == rest;
  }

  lemma {:induction false} EncodeFirst(b: Byte, rest: seq<Byte>)
    ensures PercentEncode([b] + rest) == PercentEncode([b]) + PercentEncode(rest)
  {
    assert ([b] + rest)[1..] == rest;
    assert PercentEncode([]) == "";
  }

  /** Percent-encoding is undone by percent-decoding, whatever follows it. */
  lemma {:induction false} PercentRoundTrip(bs: seq<Byte>, tail: string)
    requires PercentDecode(tail).Some?
    ensures PercentDecode(PercentEncode(bs) + tail) == Some(bs + PercentDecode(tail).value)
  {
    var end := PercentDecode(tail).value;
    if bs == [] {
      assert PercentEncode(bs) + tail == tail;
      assert bs + end == end;
    } else {
      var b, more := bs[0], bs[1..];
      var first, rest := PercentEncode([b]), PercentEncode(more);
      PercentRoundTrip(more, tail);
      calc {
        PercentDecode(PercentEncode(bs) + tail);
      == {
          assert [b] + more == bs;
          EncodeFirst(b, more);
        }
        PercentDecode(first + rest + tail);
      == { assert first + rest + tail == first + (rest + tail); }
        PercentDecode(first + (rest + tail));
      == { DecodeOctet(b, rest + tail); }
        Some([b] + (more + end));
      == { assert [b] + (more + end) == bs + end; }
        Some(bs + end);
      }
    }
  }

  lemma {:induction false} DecodeOctet(b: Byte, rest: string)
    requires PercentDecode(rest).Some?
    ensures PercentDecode(PercentEncode([b]) + rest) == Some([b] + PercentDecode(rest).value)
  {
    var c := b as int as char;
    assert PercentEncode([]) == "";
    if Unreserved(c) {
      DecodeRaw(c, rest);
      assert PercentEncode([b]) == [c];
    } else {
      DecodeTriple(b, rest);
      assert PercentEncode([b]) == ['%', HexDigit(b as int / 16), HexDigit(b as int % 16)];
    }
  }

  predicate RawAscii(s: string) {
    forall i | 0 <= i < |s| :: s[i] != '%' && s[i] as int < 128
  }

  /** Raw ASCII text stands for itself, in both encodings. */
  lemma {:induction false} RawStandsForItself(raw: string, tail: string)
    requires RawAscii(raw) && PercentDecode(tail).Some?
    ensures PercentDecode(raw + tail) == Some(Utf8.Encode(raw) + PercentDecode(tail).value)
  {
    var end := PercentDecode(tail).value;
    if raw == "" {
      assert raw + tail == tail;
      assert Utf8.Encode(raw) + end == end;
    } else {
      var first, rest := raw[0], raw[1..];
      var b := first as int as Byte;
      calc {
        PercentDecode(raw + tail);
      == { assert raw + tail == [first] + (rest + tail); }
        PercentDecode([first] + (rest + tail));
      == {
          RawStandsForItself(rest, tail);
          DecodeRaw(first, rest + tail);
        }
        Some([b] + (Utf8.Encode(rest) + end));
      == { assert [b] + (Utf8.Encode(rest) + end) == [b] + Utf8.Encode(rest) + end; }
        Some([b] + Utf8.Encode(rest) + end);
      == { assert Utf8.Encode(raw) == [b] + Utf8.Encode(rest); }
        Some(Utf8.Encode(raw) + end);
      }
    }
  }

  lemma {:induction false} QuotesRoundTrip(s: string)
    ensures ReadString(EscapeQuotes(s) + "'") == Some(s)
  {
    if s != "" {
      QuotesRoundTrip(s[1..]);
      var rest := EscapeQuotes(s[1..]) + "'";
      var whole := EscapeQuotes(s) + "'";
      if s[0] == '\'' {
        assert whole == "''" + rest;
        assert whole[2..] == rest;
      } else {
        assert whole == [s[0]] + rest;
        assert whole[1..] == rest;
      }
      assert [s[0]] + s[1..] == s;
    }
  }

  lemma {:induction false} CutAfterPlain(name: string, c: char, rest: string)
    requires c !in name
    ensures IndexOf(name + [c] + rest, c) == Some(|name|)
    ensures Cut(name + [c] + rest, c) == Some((name, rest))
  {
    var text := name + [c] + rest;
    if name != "" {
      assert text[1..] == name[1..] + [c] + rest;
      CutAfterPlain(name[1..], c, rest);
    }
    assert text[..|name|] == name && text[|name| + 1..] == rest;
  }

  /** The quoted literal and the closing parenthesis, as the parser takes them apart. */
  lemma {:induction false} LiteralRoundTrip(key: string, literal: string)
    requires literal == "'" + EscapeQuotes(key) + "')"
    ensures |literal| >= 3 && literal[0] == '\'' && literal[|literal| - 1] == ')'
    ensures ReadString(literal[1..|literal| - 1]) == Some(key)
  {
    assert literal[1..|literal| - 1] == EscapeQuotes(key) + "'";
    QuotesRoundTrip(key);
  }

  lemma {:induction false} SegmentRoundTrip(ep: Endpoint, key: string)
    requires PlainNames(ep)
    ensures ParseSegment(Predicate(ep, EscapeQuotes(key))) == Some(Addressed(ep.entitySet, ep.keyName, key))
  {
    var literal := "'" + EscapeQuotes(key) + "')";
    LiteralRoundTrip(key, literal);
    ParsePlain(ep, Predicate(ep, EscapeQuotes(key)), literal, key);
  }

  lemma {:induction false} ParsePlain(ep: Endpoint, segment: string, literal: string, key: string)
    requires PlainNames(ep) && segment == ep.entitySet + "(" + (ep.keyName + "=" + literal)
    requires |literal| >= 3 && literal[0] == '\'' && literal[|literal| - 1] == ')'
    requires ReadString(literal[1..|literal| - 1]) == Some(key)
    ensures ParseSegment(segment) == Some(Addressed(ep.entitySet, ep.keyName, key))
  {
    CutAfterPlain(ep.entitySet, '(', ep.keyName + "=" + literal);
    CutAfterPlain(ep.keyName, '=', literal);
  }

  /** Unreserved characters and upper-case `%XX` triples, and nothing else. */
  predicate Encoded(s: string) {
    s == ""
    || (Unreserved(s[0]) && Encoded(s[1..]))
    || (|s| >= 3 && s[0] == '%' && UpperHex(s[1]) && UpperHex(s[2]) && Encoded(s[3..]))
  }

  predicate UpperHex(c: char) {
    '0' <= c <= '9' || 'A' <= c <= 'F'
  }

  lemma {:induction false} EncodingIsEncoded(bs: seq<Byte>)
    ensures Encoded(PercentEncode(bs))
  {
    if bs != [] {
      EncodingIsEncoded(bs[1..]);
      assert [bs[0]] + bs[1..] == bs;
      EncodeFirst(bs[0], bs[1..]);
      var whole, rest := PercentEncode(bs), PercentEncode(bs[1..]);
      assert PercentEncode([]) == "";
      if Unreserved(bs[0] as int as char) {
        assert whole[1..] == rest;
      } else {
        assert whole[3..] == rest;
      }
    }
  }

  lemma {:induction false} EncodedAlphabet(s: string)
    requires Encoded(s)
    ensures forall c | c in s :: Unreserved(c) || c == '%'
  {
    if s != "" {
      if Unreserved(s[0]) && Encoded(s[1..]) {
        EncodedAlphabet(s[1..]);
        assert s == [s[0]] + s[1..];
      } else {
        EncodedAlphabet(s[3..]);
        assert s == [s[0], s[1], s[2]] + s[3..];
      }
    }
  }

  // ---- What the encoding leaves alone ----

  /** Section 2.3 of RFC 3986, in its own numbers. */
  lemma UnreservedIs(c: char)
    ensures var x := c as int;
            Unreserved(c) <==>
              || 0x41 <= x <= 0x5A || 0x61 <= x <= 0x7A || 0x30 <= x <= 0x39
              || x == 0x2D || x == 0x2E || x == 0x5F || x == 0x7E
  {
  }

  lemma {:induction false} EscapeAppend(a: string, b: string)
    ensures EscapeQuotes(a + b) == EscapeQuotes(a) + EscapeQuotes(b)
  {
    if a == "" {
      assert a + b == b;
    } else {
      var first := if a[0] == '\'' then "''" else [a[0]];
      calc {
        EscapeQuotes(a + b);
      == { assert (a + b)[1..] == a[1..] + b; }
        first + EscapeQuotes(a[1..] + b);
      == { EscapeAppend(a[1..], b); }
        first + (EscapeQuotes(a[1..]) + EscapeQuotes(b));
      ==
        EscapeQuotes(a) + EscapeQuotes(b);
      }
    }
  }

  lemma {:induction false} PercentAppend(a: seq<Byte>, b: seq<Byte>)
    ensures PercentEncode(a + b) == PercentEncode(a) + PercentEncode(b)
  {
    if a == [] {
      assert a + b == b;
    } else {
      var first := PercentEncode([a[0]]);
      calc {
        PercentEncode(a + b);
      == {
          assert [a[0]] + (a[1..] + b) == a + b;
          EncodeFirst(a[0], a[1..] + b);
        }
        first + PercentEncode(a[1..] + b);
      == { PercentAppend(a[1..], b); }
        first + (PercentEncode(a[1..]) + PercentEncode(b));
      ==
        first + PercentEncode(a[1..]) + PercentEncode(b);
      == {
          assert [a[0]] + a[1..] == a;
          EncodeFirst(a[0], a[1..]);
        }
        PercentEncode(a) + PercentEncode(b);
      }
    }
  }

  /** Each character is encoded by itself. */
  lemma EncodeKeyAppend(a: string, b: string)
    ensures EncodeKey(a + b) == EncodeKey(a) + EncodeKey(b)
  {
    EscapeAppend(a, b);
    Utf8.EncodeAppend(EscapeQuotes(a), EscapeQuotes(b));
    PercentAppend(Utf8.Encode(EscapeQuotes(a)), Utf8.Encode(EscapeQuotes(b)));
  }

  /** `text` is one upper-case triple for each octet. */
  predicate Triples(text: string, octets: seq<Byte>) {
    && |text| == 3 * |octets|
    && forall k | 0 <= k < |octets| ::
         && text[3 * k] == '%' && UpperHex(text[3 * k + 1]) && UpperHex(text[3 * k + 2])
         && HexPair(text[3 * k + 1], text[3 * k + 2]) == Some(octets[k])
  }

  lemma {:induction false} EncodedAsTriples(octets: seq<Byte>)
    requires forall k | 0 <= k < |octets| :: !Unreserved(octets[k] as int as char)
    ensures Triples(PercentEncode(octets), octets)
  {
    if octets != [] {
      var rest := PercentEncode(octets[1..]);
      EncodedAsTriples(octets[1..]);
      HexRoundTrip(octets[0]);
      assert PercentEncode(octets)[3..] == rest;
      TriplesShift(PercentEncode(octets), octets);
    }
  }

  lemma TriplesShift(text: string, octets: seq<Byte>)
    requires octets != [] && |text| >= 3 && Triples(text[3..], octets[1..])
    requires text[0] == '%' && UpperHex(text[1]) && UpperHex(text[2]) && HexPair(text[1], text[2]) == Some(octets[0])
    ensures Triples(text, octets)
  {
    forall k | 1 <= k < |octets|
      ensures text[3 * k] == '%' && UpperHex(text[3 * k + 1]) && UpperHex(text[3 * k + 2])
      ensures HexPair(text[3 * k + 1], text[3 * k + 2]) == Some(octets[k])
    {
      var j := k - 1;
      assert octets[1..][j] == octets[k];
      assert text[3..][3 * j] == text[3 * k] && text[3..][3 * j + 1] == text[3 * k + 1]
          && text[3..][3 * j + 2] == text[3 * k + 2];
    }
  }

  /** An unreserved character stands for itself, a quote becomes the triple of its octet twice, and
      every other character one triple for each of its octets in UTF-8; whatever is around it. */
  lemma CharacterEncodings(a: string, c: char, b: string)
    ensures EncodeKey(a + [c] + b) == EncodeKey(a) + EncodeKey([c]) + EncodeKey(b)
    ensures Unreserved(c) ==> EncodeKey([c]) == [c]
    ensures c == '\'' ==> EncodeKey([c]) == "%27%27"
    ensures !Unreserved(c) && c != '\'' ==> Triples(EncodeKey([c]), Utf8.EncodeChar(c))
  {
    EncodeKeyAppend(a + [c], b);
    EncodeKeyAppend(a, [c]);
    assert EscapeQuotes([c]) == if c == '\'' then "''" else [c];
    assert Utf8.Encode([c]) == Utf8.EncodeChar(c);
    Utf8.Layout(c);
    if c == '\'' {
      QuoteEncoding();
    } else if Unreserved(c) {
      assert Utf8.EncodeChar(c) == [c as int as Byte];
      assert PercentEncode([c as int as Byte]) == [c] + PercentEncode([]);
    } else {
      EncodedAsTriples(Utf8.EncodeChar(c));
    }
  }

  lemma QuoteEncoding()
    ensures EncodeKey("'") == "%27%27"
  {
    assert EscapeQuotes("'") == "''";
    Utf8.EncodeAppend("'", "'");
    assert "'" + "'" == "''";
    assert Utf8.Encode("'") == [39];
    PercentAppend([39], [39]);
    assert PercentEncode([39]) == "%27" + PercentEncode([]);
  }

  /** A key of unreserved characters is in the URL as it is. */
  lemma {:induction false} PlainIsUnchanged(key: string)
    requires Plain(key)
    ensures EncodeKey(key) == key
  {
    if key == "" {
      assert EncodeKey("") == "";
    } else {
      PlainIsUnchanged(key[1..]);
      CharacterEncodings("", key[0], key[1..]);
      assert "" + [key[0]] + key[1..] == key;
      assert EncodeKey("") == "";
    }
  }

  /** A key of unreserved characters is in the URL as it is. */
  lemma PlainKeyIsItself(ep: Endpoint, key: string)
    requires Plain(key)
    ensures EncodeKey(key) == key
    ensures EntityUrl(ep, key) == ep.baseUrl + "/" + ep.entitySet + "(" + ep.keyName + "='" + key + "')"
  {
    PlainIsUnchanged(key);
    var path := ep.entitySet + "(" + ep.keyName + "='" + key + "')";
    assert EntityPath(ep, key) == path;
    assert ep.baseUrl + "/" + path == ep.baseUrl + "/" + ep.entitySet + "(" + ep.keyName + "='" + key + "')";
  }

  /** A quote or a slash between plain texts. */
  lemma QuotedAndSlashed(a: string, b: string)
    requires Plain(a) && Plain(b)
    ensures EncodeKey(a + "'" + b) == a + "%27%27" + b
    ensures EncodeKey(a + "/" + b) == a + "%2F" + b
  {
    PlainIsUnchanged(a);
    PlainIsUnchanged(b);
    CharacterEncodings(a, '\'', b);
    CharacterEncodings(a, '/', b);
    SlashEncoding();
  }

  lemma SlashEncoding()
    ensures EncodeKey("/") == "%2F"
  {
    assert EscapeQuotes("/") == "/";
    assert Utf8.Encode("/") == [47];
    assert PercentEncode([47]) == "%2F" + PercentEncode([]);
  }

  /** The octets a server decodes from the entity path are those of the escaped predicate. */
  lemma {:induction false} PathDecodes(ep: Endpoint, key: string)
    requires PlainNames(ep)
    ensures PercentDecode(EntityPath(ep, key)) == Some(Utf8.Encode(Predicate(ep, EscapeQuotes(key))))
  {
    var head := ep.entitySet + "(" + ep.keyName + "='";
    var body := EscapeQuotes(key);
    TailDecodes(Utf8.Encode(body));
    HeadIsRaw(ep);
    RawStandsForItself(head, EncodeKey(key) + "')");
    assert EntityPath(ep, key) == head + (EncodeKey(key) + "')");
    Utf8.EncodeAppend(body, "')");
    Utf8.EncodeAppend(head, body + "')");
    assert head + (body + "')") == Predicate(ep, body);
  }

  lemma HeadIsRaw(ep: Endpoint)
    requires PlainNames(ep)
    ensures RawAscii(ep.entitySet + "(" + ep.keyName + "='")
  {
  }

  lemma {:induction false} TailDecodes(octets: seq<Byte>)
    ensures PercentDecode(PercentEncode(octets) + "')") == Some(octets + Utf8.Encode("')"))
  {
    RawStandsForItself("')", "");
    assert "')" + "" == "')";
    assert Utf8.Encode("')") + [] == Utf8.Encode("')");
    PercentRoundTrip(octets, "')");
  }

  /** Every key, whatever it contains, is read back from its URL exactly. */
  lemma KeyRoundTrip(ep: Endpoint, key: string)
    requires PlainNames(ep)
    ensures Resolve(ep, EntityUrl(ep, key)) == Some(key)
  {
    var root := ep.baseUrl + "/";
    assert EntityUrl(ep, key) == root + EntityPath(ep, key);
    assert EntityUrl(ep, key)[|root|..] == EntityPath(ep, key);
    PathShape(ep, key);
    PathDecodes(ep, key);
    Utf8.RoundTrip(Predicate(ep, EscapeQuotes(key)));
    SegmentRoundTrip(ep, key);
  }

  /** Different keys have different URLs. */
  lemma UrlInjective(ep: Endpoint, a: string, b: string)
    requires EntityUrl(ep, a) == EntityUrl(ep, b)
    ensures a == b
  {
    var head := ep.baseUrl + "/" + ep.entitySet + "(" + ep.keyName + "='";
    assert EntityUrl(ep, a) == head + EncodeKey(a) + "')";
    assert EntityUrl(ep, b) == head + EncodeKey(b) + "')";
    SameMiddle(head, EncodeKey(a), EncodeKey(b), "')");
    KeyRoundTrip(Endpoint("", "", ""), a);
    KeyRoundTrip(Endpoint("", "", ""), b);
  }

  lemma SameMiddle(head: string, a: string, b: string, tail: string)
    requires head + a + tail == head + b + tail
    ensures a == b
  {
    assert a == (head + a + tail)[|head|..|head| + |a|];
    assert b == (head + b + tail)[|head|..|head| + |b|];
  }

  function Count(s: string, c: char): nat {
    if s == "" then 0 else (if s[0] == c then 1 else 0) + Count(s[1..], c)
  }

  lemma {:induction false} CountAppend(s: string, t: string, c: char)
    ensures Count(s + t, c) == Count(s, c) + Count(t, c)
  {
    if s == "" {
      assert s + t == t;
    } else {
      assert (s + t)[1..] == s[1..] + t;
      CountAppend(s[1..], t, c);
    }
  }

  lemma {:induction false} CountAbsent(s: string, c: char)
    requires c !in s
    ensures Count(s, c) == 0
  {
    if s != "" {
      CountAbsent(s[1..], c);
    }
  }

  /** The encoded key is made of unreserved characters and `%XX` triples; the entity path is one
      segment whose only raw quotes are the two that delimit the literal. */
  lemma PathShape(ep: Endpoint, key: string)
    requires PlainNames(ep)
    ensures Encoded(EncodeKey(key))
    ensures OneSegment(EntityPath(ep, key))
    ensures Count(EntityPath(ep, key), '\'') == 2
  {
    var encoded := EncodeKey(key);
    EncodingIsEncoded(Utf8.Encode(EscapeQuotes(key)));
    EncodedAlphabet(encoded);
    QuotesInPredicate(ep, encoded);
    PlainIsOneSegment(ep, encoded);
  }

  lemma PlainIsOneSegment(ep: Endpoint, body: string)
    requires PlainNames(ep)
    requires forall c | c in body :: Unreserved(c) || c == '%'
    ensures OneSegment(Predicate(ep, body))
  {
  }

  lemma QuotesInPredicate(ep: Endpoint, encoded: string)
    requires '\'' !in ep.entitySet && '\'' !in ep.keyName && '\'' !in encoded
    ensures Count(Predicate(ep, encoded), '\'') == 2
  {
    CountAbsent(ep.entitySet, '\'');
    CountAbsent(ep.keyName, '\'');
    CountAbsent(encoded, '\'');
    CountAppend(ep.entitySet, "(", '\'');
    CountAppend(ep.entitySet + "(", ep.keyName, '\'');
    CountAppend(ep.entitySet + "(" + ep.keyName, "='", '\'');
    CountAppend(ep.entitySet + "(" + ep.keyName + "='", encoded, '\'');
    CountAppend(ep.entitySet + "(" + ep.keyName + "='" + encoded, "')", '\'');
    CountLiterals();
  }

  lemma CountLiterals()
    ensures Count("(", '\'') == 0 && Count("='", '\'') == 1 && Count("')", '\'') == 1
  {
    assert "='"[1..] == "'" && "')"[1..] == ")";
    assert Count("'", '\'') == 1;
    assert Count(")", '\'') == 0;
  }
}
