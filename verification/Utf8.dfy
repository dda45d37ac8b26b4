/** UTF-8 as RFC 3629 defines it: what `quote` applies to a key before percent-encoding it, and
    the strict decoder (no overlong forms, no surrogates) a server applies to the octets. */
module Utf8 {
  import opened Wrappers

  newtype Byte = b: int | 0 <= b < 256

  function EncodeChar(c: char): (bs: seq<Byte>)
    ensures 1 <= |bs| <= 4
  {
    var x := c as int;
    if x < 0x80 then [x as Byte]
    else if x < 0x800 then [(0xC0 + x / 64) as Byte, (0x80 + x % 64) as Byte]
    else if x < 0x10000 then
      [(0xE0 + x / 4096) as Byte, (0x80 + x / 64 % 64) as Byte, (0x80 + x % 64) as Byte]
    else
      [(0xF0 + x / 262144) as Byte, (0x80 + x / 4096 % 64) as Byte,
       (0x80 + x / 64 % 64) as Byte, (0x80 + x % 64) as Byte]
  }

  function Encode(s: string): seq<Byte> {
    if s == "" then [] else EncodeChar(s[0]) + Encode(s[1..])
  }

  predicate Continuation(b: Byte) {
    0x80 <= b < 0xC0
  }

  /** The scalar value that starts `bs`, and how many octets it takes. */
  function DecodeFirst(bs: seq<Byte>): Option<(int, nat)>
    requires bs != []
  {
    var b := bs[0] as int;
    if b < 0x80 then Some((b, 1))
    else if 0xC0 <= b < 0xE0 && |bs| >= 2 && Continuation(bs[1]) then
      Some(((b - 0xC0) * 64 + (bs[1] as int - 0x80), 2))
    else if 0xE0 <= b < 0xF0 && |bs| >= 3 && Continuation(bs[1]) && Continuation(bs[2]) then
      Some(((b - 0xE0) * 4096 + (bs[1] as int - 0x80) * 64 + (bs[2] as int - 0x80), 3))
    else if 0xF0 <= b < 0xF8 && |bs| >= 4
            && Continuation(bs[1]) && Continuation(bs[2]) && Continuation(bs[3]) then
      Some(((b - 0xF0) * 262144 + (bs[1] as int - 0x80) * 4096
            + (bs[2] as int - 0x80) * 64 + (bs[3] as int - 0x80), 4))
    else None
  }

  predicate IsScalar(x: int) {
    0 <= x < 0xD800 || 0xE000 <= x < 0x110000
  }

  function Width(x: int): nat {
    if x < 0x80 then 1 else if x < 0x800 then 2 else if x < 0x10000 then 3 else 4
  }

  function Decode(bs: seq<Byte>): Option<string> {
    if bs == [] then Some("")
    else
      match DecodeFirst(bs)
      case None => None
      case Some((x, width)) =>
        if !IsScalar(x) || width != Width(x) || width > |bs| then None
        else
          match Decode(bs[width..])
          case None => None
          case Some(rest) => Some([x as char] + rest)
  }

  /** Section 3 of RFC 3629: the first octet tells how many there are, the others are continuations,
      and each carries its bits of the character. */
  lemma Layout(c: char)
    ensures var x, bs := c as int, EncodeChar(c);
            && |bs| == Width(x)
            && (forall i | 1 <= i < |bs| :: 0x80 <= bs[i] < 0xC0)
            && (|bs| == 1 ==> bs[0] as int == x < 0x80)
            && (|bs| == 2 ==>
                  0xC0 <= bs[0] < 0xE0 && x == (bs[0] as int - 0xC0) * 0x40 + (bs[1] as int - 0x80))
            && (|bs| == 3 ==>
                  && 0xE0 <= bs[0] < 0xF0
                  && x == (bs[0] as int - 0xE0) * 0x1000 + (bs[1] as int - 0x80) * 0x40 + (bs[2] as int - 0x80))
            && (|bs| == 4 ==>
                  && 0xF0 <= bs[0] < 0xF8
                  && x == (bs[0] as int - 0xF0) * 0x40000 + (bs[1] as int - 0x80) * 0x1000
                          + (bs[2] as int - 0x80) * 0x40 + (bs[3] as int - 0x80))
  {
    DecodeFirstChar(c, []);
    assert EncodeChar(c) + [] == EncodeChar(c);
  }

  lemma DecodeFirstChar(c: char, rest: seq<Byte>)
    ensures DecodeFirst(EncodeChar(c) + rest) == Some((c as int, |EncodeChar(c)|))
    ensures |EncodeChar(c)| == Width(c as int)
  {
    var x := c as int;
    assert x == x / 64 * 64 + x % 64;
    assert x / 64 == x / 4096 * 64 + x / 64 % 64;
    assert x / 4096 == x / 262144 * 64 + x / 4096 % 64;
  }

  lemma {:induction false} RoundTrip(s: string)
    ensures Decode(Encode(s)) == Some(s)
  {
    if s != "" {
      var first, rest := EncodeChar(s[0]), Encode(s[1..]);
      DecodeFirstChar(s[0], rest);
      assert (first + rest)[|first|..] == rest;
      RoundTrip(s[1..]);
      assert [s[0]] + s[1..] == s;
    }
  }

  lemma {:induction false} EncodeAppend(s: string, t: string)
    ensures Encode(s + t) == Encode(s) + Encode(t)
  {
    if s == "" {
      assert s + t == t;
    } else {
      assert (s + t)[1..] == s[1..] + t;
      EncodeAppend(s[1..], t);
      assert EncodeChar(s[0]) + Encode(s[1..]) + Encode(t) == EncodeChar(s[0]) + (Encode(s[1..]) + Encode(t));
    }
  }
}
