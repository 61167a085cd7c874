/** Text as octets: str.encode("utf-8") and bytes.decode("utf-8"). */
module Utf8 {

  import opened Wrappers
  import opened Bytes

  predicate Ascii(s: string) {
    forall i :: 0 <= i < |s| ==> s[i] as int < 0x80
  }

  function EncodeChar(c: char): (b: bytes)
    ensures 1 <= |b| <= 4
    ensures |b| == 1 <==> c as int < 0x80
  {
    var n := c as int;
    if n < 0x80 then [n]
    else if n < 0x800 then [0xC0 + n / 0x40, 0x80 + n % 0x40]
    else if n < 0x1_0000 then [0xE0 + n / 0x1000, 0x80 + n / 0x40 % 0x40, 0x80 + n % 0x40]
    else [0xF0 + n / 0x4_0000, 0x80 + n / 0x1000 % 0x40, 0x80 + n / 0x40 % 0x40, 0x80 + n % 0x40]
  }

  predicate Continuation(b: byte) { 0x80 <= b < 0xC0 }

  /** The first character and its width; None for overlong forms, surrogates and anything else malformed. */
  function DecodeChar(b: bytes): Option<(char, nat)>
    requires b != []
  {
    if b[0] < 0x80 then Some((b[0] as char, 1))
    else if 0xC0 <= b[0] < 0xE0 && |b| >= 2 && Continuation(b[1]) then
      var n := (b[0] - 0xC0) as int * 0x40 + (b[1] - 0x80) as int;
      if n < 0x80 then None else Some((n as char, 2))
    else if 0xE0 <= b[0] < 0xF0 && |b| >= 3 && Continuation(b[1]) && Continuation(b[2]) then
      var n := (b[0] - 0xE0) as int * 0x1000 + (b[1] - 0x80) as int * 0x40 + (b[2] - 0x80) as int;
      if n < 0x800 || 0xD800 <= n < 0xE000 then None else Some((n as char, 3))
    else if 0xF0 <= b[0] < 0xF8 && |b| >= 4 && Continuation(b[1]) && Continuation(b[2]) && Continuation(b[3]) then
      var n := (b[0] - 0xF0) as int * 0x4_0000 + (b[1] - 0x80) as int * 0x1000 + (b[2] - 0x80) as int * 0x40
               + (b[3] - 0x80) as int;
      if n < 0x1_0000 || 0x11_0000 <= n then None else Some((n as char, 4))
    else None
  }

  function EncodeUtf8(s: string): (b: bytes) {
    if s == "" then [] else EncodeChar(s[0]) + EncodeUtf8(s[1..])
  }

  function DecodeUtf8(b: bytes): Option<string>
    decreases |b|
  {
    if b == [] then Some("")
    else
      match DecodeChar(b)
      case None => None
      case Some((c, n)) =>
        if n > |b| then None
        else
          match DecodeUtf8(b[n..])
          case None => None
          case Some(s) => Some([c] + s)
  }

  lemma DecodeEncodedChar(c: char, tail: bytes)
    ensures DecodeChar(EncodeChar(c) + tail) == Some((c, |EncodeChar(c)|))
  {
    var n, b := c as int, EncodeChar(c) + tail;
    assert n / 0x1000 == n / 0x40 / 0x40 && n / 0x4_0000 == n / 0x1000 / 0x40;
  }

  lemma EncodeDecodedChar(b: bytes)
    requires b != [] && DecodeChar(b).Some?
    ensures var (c, n) := DecodeChar(b).value;
            1 <= n <= |b| && EncodeChar(c) == b[..n]
  {
    var (c, n) := DecodeChar(b).value;
    var v := c as int;
    if n == 2 {
      Digits(v, b[0] as int - 0xC0, b[1] as int - 0x80);
    } else if n == 3 {
      Digits(v, (b[0] as int - 0xE0) * 0x40 + (b[1] as int - 0x80), b[2] as int - 0x80);
      Digits(v / 0x40, b[0] as int - 0xE0, b[1] as int - 0x80);
    } else if n == 4 {
      var w := (b[0] as int - 0xF0) * 0x40 + (b[1] as int - 0x80);
      Digits(v, w * 0x40 + (b[2] as int - 0x80), b[3] as int - 0x80);
      Digits(v / 0x40, w, b[2] as int - 0x80);
      Digits(v / 0x1000, b[0] as int - 0xF0, b[1] as int - 0x80);
    }
  }

  lemma Digits(v: nat, high: nat, low: nat)
    requires v == high * 0x40 + low && low < 0x40
    ensures v / 0x40 == high && v % 0x40 == low
    ensures v / 0x1000 == high / 0x40 && v / 0x4_0000 == high / 0x1000
  {
  }

  lemma {:induction false} Utf8RoundTrip(s: string)
    ensures DecodeUtf8(EncodeUtf8(s)) == Some(s)
  {
    hide EncodeChar, DecodeChar;
    if s != "" {
      var first, rest := EncodeChar(s[0]), EncodeUtf8(s[1..]);
      DecodeEncodedChar(s[0], rest);
      assert (first + rest)[|first|..] == rest && [s[0]] + s[1..] == s;
      Utf8RoundTrip(s[1..]);
    }
  }

  /** Only the encoding of a text decodes to it. */
  lemma {:induction false} DecodedIsEncoded(b: bytes)
    requires DecodeUtf8(b).Some?
    ensures EncodeUtf8(DecodeUtf8(b).value) == b
    decreases |b|
  {
    hide EncodeChar, DecodeChar;
    if b != [] {
      EncodeDecodedChar(b);
      var (c, n) := DecodeChar(b).value;
      DecodedIsEncoded(b[n..]);
      var s := DecodeUtf8(b[n..]).value;
      assert ([c] + s)[1..] == s;
      assert b[..n] + b[n..] == b;
    }
  }

  /** The octets of a character are the ones of section 3 of RFC 3629. */
  lemma CharacterLayout(a: nat, x: nat, y: nat, z: nat)
    requires x < 64 && y < 64 && z < 64
    ensures a < 128 ==> EncodeUtf8([a as char]) == [a]
    ensures 2 <= a < 32 ==> EncodeUtf8([(64 * a + x) as char]) == [192 + a, 128 + x]
    ensures a < 16 && (32 <= 64 * a + x < 864 || 896 <= 64 * a + x) ==>
              EncodeUtf8([(4096 * a + 64 * x + y) as char]) == [224 + a, 128 + x, 128 + y]
    ensures 16 <= 64 * a + x < 272 ==>
              EncodeUtf8([(262144 * a + 4096 * x + 64 * y + z) as char]) == [240 + a, 128 + x, 128 + y, 128 + z]
  {
    hide EncodeChar;
    if a < 128 {
      CharacterOctets([a], a);
    }
    if 2 <= a < 32 {
      CharacterOctets([192 + a, 128 + x], 64 * a + x);
    }
    if a < 16 && (32 <= 64 * a + x < 864 || 896 <= 64 * a + x) {
      CharacterOctets([224 + a, 128 + x, 128 + y], 4096 * a + 64 * x + y);
    }
    if 16 <= 64 * a + x < 272 {
      CharacterOctets([240 + a, 128 + x, 128 + y, 128 + z], 262144 * a + 4096 * x + 64 * y + z);
    }
  }

  lemma CharacterOctets(b: bytes, n: nat)
    requires b != [] && (n < 0xD800 || 0xE000 <= n < 0x11_0000) && DecodeChar(b) == Some((n as char, |b|))
    ensures EncodeUtf8([n as char]) == b
  {
    EncodeDecodedChar(b);
    assert [n as char][1..] == "" && b[..|b|] == b;
  }

  /** A text has as many octets as characters if and only if it is ASCII; otherwise it has more. */
  lemma {:induction false} Utf8Length(s: string)
    ensures |EncodeUtf8(s)| >= |s|
    ensures |EncodeUtf8(s)| == |s| <==> Ascii(s)
  {
    if s != "" {
      Utf8Length(s[1..]);
      assert Ascii(s) <==> s[0] as int < 0x80 && Ascii(s[1..]) by {
        assert forall i :: 0 <= i < |s[1..]| ==> s[1..][i] == s[i + 1];
        if s[0] as int < 0x80 && Ascii(s[1..]) {
          forall i | 0 <= i < |s| ensures s[i] as int < 0x80 {
            if i > 0 { assert s[i] == s[1..][i - 1]; }
          }
        }
      }
    }
  }

  /** Fewer octets than the whole encoding never decode to the text. */
  lemma PartIsAnotherText(s: string, b: bytes)
    requires |b| < |EncodeUtf8(s)|
    ensures DecodeUtf8(b) != Some(s)
  {
    if DecodeUtf8(b) == Some(s) {
      DecodedIsEncoded(b);
    }
  }
}
