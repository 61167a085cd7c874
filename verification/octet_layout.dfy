/** The octets themselves: what datagrams, frames and option sections look like, in literal numbers. */
module OctetLayout {

  import opened Wrappers
  import opened Bytes
  import opened Utf8
  import opened OptionRegistry
  import opened OptionWire
  import opened OptionOrder
  import opened BodyCodec
  import opened TcpPacking
  import UdpSerializer
  import TcpSerializer
  import OptionsCodec

  // --------------------------------------------------------------- one option

  /** The nibble and the extended field of a delta or a length, section 3.1 of RFC 7252. */
  function FieldNibble(v: nat): nat { if v < 13 then v else if v < 269 then 13 else 14 }

  function FieldOctets(v: nat): bytes
    requires v < 65805
  {
    if v < 13 then [] else if v < 269 then [v - 13] else [(v - 269) / 256, (v - 269) % 256]
  }

  lemma WordsOfTwo(w: nat)
    ensures Words(w, 2) == [w / 256 % 256, w % 256]
  {
    assert Words(w, 2) == Words(w / 256, 1) + [w % 256];
    assert Words(w / 256, 1) == Words(w / 256 / 256, 0) + [w / 256 % 256] == [w / 256 % 256];
  }

  lemma FieldLayout(v: nat)
    requires v < 65805
    ensures Nibble(v) == Some(FieldNibble(v)) && Extended(v) == FieldOctets(v)
  {
    if v >= 269 {
      WordsOfTwo(v - 269);
    }
  }

  /** Header octet, extended delta, extended length, value. */
  lemma OptionLayout(o: StoredOption, last: nat)
    requires FieldsFit(o, last)
    ensures var delta, length := o.number - last, Length(o.value);
            && delta < 65805 && length < 65805
            && PrintOption(o, last)
               == [16 * FieldNibble(delta) + FieldNibble(length)] + FieldOctets(delta) + FieldOctets(length)
                  + ValueBytes(o.value)
            && (delta < 13 && length < 13 ==> PrintOption(o, last) == [16 * delta + length] + ValueBytes(o.value))
  {
    hide ValueBytes, Length;
    FieldLayout(o.number - last);
    FieldLayout(Length(o.value));
  }

  /** Integers in the fewest octets, the highest first; text in UTF-8, one octet a character below 128. */
  lemma ValueLayout(n: nat, s: string, b: bytes)
    ensures ValueBytes(Raw(b)) == b
    ensures n == 0 ==> ValueBytes(Int(n)) == []
    ensures 0 < n < 256 ==> ValueBytes(Int(n)) == [n]
    ensures 256 <= n < 65536 ==> ValueBytes(Int(n)) == [n / 256, n % 256]
    ensures |s| == 1 && s[0] as int < 128 ==> ValueBytes(Str(s)) == [s[0] as int]
  {
    if 0 < n < 65536 {
      assert ByteLen(n) == 1 + ByteLen(n / 256);
      assert n >= 256 ==> ByteLen(n / 256) == 1 + ByteLen(n / 256 / 256) == 1;
      assert Words(n, 1) == Words(n / 256, 0) + [n % 256];
      WordsOfTwo(n);
    }
    if |s| == 1 {
      assert EncodeUtf8(s) == EncodeChar(s[0]) + EncodeUtf8(s[1..]) && s[1..] == "";
    }
  }

  /** The payload marker is 255; nothing is written for an absent or empty payload. */
  lemma PayloadLayout(p: bytes)
    ensures p != [] ==> PayloadSection(Some(p)) == [255] + p
    ensures PayloadSection(None) == PayloadSection(Some([])) == []
  {
  }

  // --------------------------------------------------------------- datagrams

  /** Section 3 of RFC 7252: version 1, type, token length, code, id, token, options, payload. */
  lemma DatagramLayout(m: UdpSerializer.Packet)
    requires UdpSerializer.Representable(m) && m.mid < 65536 && |m.token| < 16
    requires UdpSerializer.PrintDatagram(m).Ok?
    ensures var d := UdpSerializer.PrintDatagram(m).value;
            var code := if m.code.None? then 0 else m.code.value;
            var section := if m.payload.None? || m.payload.value == [] then [] else [255] + m.payload.value;
            && AllFit(SortByNumber(m.options), 0)
            && d == [64 + 16 * m.typ + |m.token|, code, m.mid / 256, m.mid % 256] + m.token
                    + PrintOptions(SortByNumber(m.options), 0) + section
  {
    hide SortByNumber, AllFit, PrintOptions, UdpSerializer.FirstOctet;
    WordsOfTwo(m.mid);
    FirstOctetLayout(m.typ, |m.token|);
  }

  predicate Bit(n: nat, k: nat) {
    if k == 0 then n % 2 == 1 else Bit(n / 2, k - 1)
  }

  lemma {:induction false} BitsOfOr(a: nat, b: nat, k: nat)
    ensures Bit(BitOr(a, b), k) <==> Bit(a, k) || Bit(b, k)
  {
    hide Bit;
    if a == 0 || b == 0 {
      NoBits(k);
    } else {
      BitStep(a / 2, a % 2, k);
      BitStep(b / 2, b % 2, k);
      BitStep(BitOr(a / 2, b / 2), if a % 2 == 1 || b % 2 == 1 then 1 else 0, k);
      if k > 0 {
        BitsOfOr(a / 2, b / 2, k - 1);
      }
    }
  }

  lemma {:induction false} NoBits(k: nat)
    ensures !Bit(0, k)
  {
    if k > 0 {
      NoBits(k - 1);
    }
  }

  /** Every bit of the first octet is the one of version 1, the type, or a token length of up to eight bits. */
  lemma FirstOctetBits(typ: nat, tkl: nat, k: nat)
    requires typ < 4 && tkl < 256
    ensures Bit(UdpSerializer.FirstOctet(typ, tkl), k) <==> Bit(64 + 16 * typ, k) || Bit(tkl, k)
  {
    var high := BitOr(4 + typ, tkl / 16);
    FourBits(high, tkl % 16, k);
    FourBits(4 + typ, 0, k);
    FourBits(tkl / 16, tkl % 16, k);
    if k >= 4 {
      BitsOfOr(4 + typ, tkl / 16, k - 4);
    } else {
      NoBits(k);
    }
  }

  lemma FourBits(high: nat, low: nat, k: nat)
    requires low < 16
    ensures Bit(high * 16 + low, k) <==> if k < 4 then Bit(low, k) else Bit(high, k - 4)
  {
    FourDigits(high, low / 8, low / 4 % 2, low / 2 % 2, low % 2, k);
    FourDigits(0, low / 8, low / 4 % 2, low / 2 % 2, low % 2, k);
    if k >= 4 {
      NoBits(k - 4);
    }
  }

  lemma FourDigits(high: nat, d: nat, c: nat, b: nat, a: nat, k: nat)
    requires a < 2 && b < 2 && c < 2 && d < 2
    ensures Bit(high * 16 + d * 8 + c * 4 + b * 2 + a, k) <==>
            if k == 0 then a == 1 else if k == 1 then b == 1 else if k == 2 then c == 1 else if k == 3 then d == 1
            else Bit(high, k - 4)
  {
    hide Bit;
    BitStep(high * 8 + d * 4 + c * 2 + b, a, k);
    if k >= 1 { BitStep(high * 4 + d * 2 + c, b, k - 1); }
    if k >= 2 { BitStep(high * 2 + d, c, k - 2); }
    if k >= 3 { BitStep(high, d, k - 3); }
  }

  lemma BitStep(high: nat, low: nat, k: nat)
    requires low < 2
    ensures Bit(2 * high + low, k) <==> if k == 0 then low == 1 else Bit(high, k - 1)
  {
  }

  /** The id 65536 and a token of 256 octets cannot be packed: from there on the datagram is zeros, of full length. */
  lemma UnpackedLayout(m: UdpSerializer.Packet)
    requires UdpSerializer.Representable(m) && UdpSerializer.PrintDatagram(m).Ok?
    ensures var d := UdpSerializer.PrintDatagram(m).value;
            var section := if m.payload.None? || m.payload.value == [] then [] else [255] + m.payload.value;
            var length := |m.token| + |PrintOptions(SortByNumber(m.options), 0)| + |section|;
            && |d| == 4 + length
            && (|m.token| == 256 ==> d == seq(4 + length, _ => 0))
            && (m.mid == 65536 && |m.token| < 16 ==>
                  d == [64 + 16 * m.typ + |m.token|, if m.code.None? then 0 else m.code.value]
                       + seq(2 + length, _ => 0))
  {
    hide SortByNumber, AllFit, PrintOptions, UdpSerializer.FirstOctet, Words;
    if |m.token| < 16 {
      FirstOctetLayout(m.typ, |m.token|);
    }
  }

  lemma FirstOctetLayout(typ: nat, tkl: nat)
    requires typ < 4 && tkl < 16
    ensures UdpSerializer.FirstOctet(typ, tkl) == 64 + 16 * typ + tkl
  {
    assert BitOr(4 + typ, 0) == 4 + typ;
  }

  lemma FoldOfTwo(a: byte, b: byte)
    ensures Fold([a, b]) == a as int * 256 + b as int
  {
    assert [a, b][..1] == [a] && [a][..0] == [];
    assert Fold([a]) == a as int;
  }

  /** The octet 255 ends the options, and at least one octet of payload follows it. */
  lemma MarkerIsParsed(p: bytes, last: nat, os: seq<StoredOption>)
    ensures p != [] ==> ParseBody([255] + p, last, os) == Body(os, Some(p))
    ensures ParseBody([255], last, os) == BadRequest
    ensures ParseBody([], last, os) == Body(os, None)
  {
    assert ([255] + p)[1..] == p;
  }

  /** The methods and the response codes, and the signalling codes that only frames carry. */
  predicate MessageCode(code: nat) {
    code in {1, 2, 3, 4, 65, 66, 67, 68, 69, 95, 128, 131, 132, 133, 134, 136, 140, 141, 143,
             160, 161, 162, 163, 164, 165}
  }

  predicate FrameCode(code: nat) { MessageCode(code) || code in {0, 225, 226, 227, 228, 229} }

  /** On UDP any other code of the two ranges is refused, and a code outside them is dropped. */
  lemma CodesAreRead(code: nat)
    ensures UdpSerializer.ReadCode(code) ==
            if MessageCode(code) then Ok(Some(code))
            else if 1 <= code <= 31 || 64 <= code <= 191 then Raised else Ok(None)
  {
  }

  /** A datagram of this shape is parsed into its fields, with the options and the payload of its body. */
  lemma DatagramIsParsed(typ: nat, code: nat, mid: nat, token: bytes, body: bytes, drawn: bytes)
    requires typ < 4 && mid < 65536 && 0 < |token| < 16
    requires code < 256 && MessageCode(code)
    ensures UdpSerializer.ParseDatagram([64 + 16 * typ + |token|, code, mid / 256, mid % 256] + token + body, drawn)
         == match ParseBody(body, 0, [])
            case Body(os, p) => UdpSerializer.Message(UdpSerializer.Packet(typ, Some(code), mid, token, os, p))
            case failure => UdpSerializer.Malformed(failure)
  {
    hide ParseBody, UdpSerializer.ReadCode, UdpSerializer.ParseDatagram, Fold, MessageCode;
    var head: bytes := [64 + 16 * typ + |token|, code, mid / 256, mid % 256];
    var d := head + token + body;
    assert d[0] == head[0] && d[1] == head[1] && d[2..4] == [head[2], head[3]] && d[4..] == token + body;
    CodesAreRead(code);
    FoldOfTwo(mid / 256, mid % 256);
    assert Take(d[4..], |token|) == token && Drop(d, 4 + |token|) == body;
    FirstOctetParts(typ, |token|);
    PartsAreParsed(d, typ, code, token, body, drawn);
  }

  lemma FirstOctetParts(typ: nat, tkl: nat)
    requires typ < 4 && tkl < 16
    ensures var b := 64 + 16 * typ + tkl;
            b / 64 == 1 && b / 16 % 4 == typ && b % 16 == tkl
  {
  }

  lemma PartsAreParsed(d: bytes, typ: nat, code: nat, token: bytes, body: bytes, drawn: bytes)
    requires |d| >= 4 && d[0] / 64 == 1 && d[0] / 16 % 4 == typ && d[0] % 16 == |token| && token != []
    requires UdpSerializer.ReadCode(d[1] as int) == Ok(Some(code))
    requires Take(d[4..], |token|) == token && Drop(d, 4 + |token|) == body
    ensures UdpSerializer.ParseDatagram(d, drawn)
         == match ParseBody(body, 0, [])
            case Body(os, p) =>
              UdpSerializer.Message(UdpSerializer.Packet(typ, Some(code), Fold(d[2..4]), token, os, p))
            case failure => UdpSerializer.Malformed(failure)
  {
    hide ParseBody, UdpSerializer.ReadCode, Fold;
  }

  /** An ACK 2.05 with a token of one octet and the payload "a". */
  lemma OneDatagram(drawn: bytes)
    ensures UdpSerializer.ParseDatagram([0x61, 0x45, 0x12, 0x34, 0x07, 0xFF, 0x61], drawn)
         == UdpSerializer.Message(UdpSerializer.Packet(2, Some(69), 0x1234, [7], [], Some([0x61])))
  {
    hide UdpSerializer.ParseDatagram, ParseBody;
    assert MessageCode(69);
    assert [0x61, 0x45, 0x12, 0x34, 0x07, 0xFF, 0x61] == [64 + 16 * 2 + 1, 69, 0x12, 0x34] + [7] + ([255] + [0x61]);
    MarkerIsParsed([0x61], 0, []);
    DatagramIsParsed(2, 69, 0x1234, [7], [255] + [0x61], drawn);
  }

  /** Too short, of another version, of an unknown code, or with a marker and nothing behind it: refused. */
  lemma DatagramIsRefused(d: bytes, drawn: bytes)
    ensures |d| < 4 ==> UdpSerializer.ParseDatagram(d, drawn) == UdpSerializer.Malformed(BadRequest)
    ensures |d| >= 4 && !(64 <= d[0] < 128) ==>
              UdpSerializer.ParseDatagram(d, drawn) == UdpSerializer.Malformed(BadRequest)
    ensures |d| >= 4 && (5 <= d[1] <= 31 || d[1] == 64) ==>
              UdpSerializer.ParseDatagram(d, drawn) == UdpSerializer.Malformed(BadRequest)
    ensures |d| == 5 && d[0] == 64 && d[1] == 1 && d[4] == 255 ==>
              UdpSerializer.ParseDatagram(d, drawn) == UdpSerializer.Malformed(BadRequest)
  {
    if |d| == 5 {
      assert Drop(d, 4) == [d[4]];
    }
  }

  /** A header octet of two short fields, in front of the value and whatever follows, at any place of a body. */
  lemma ShortOptionIsParsed(delta: nat, value: bytes, last: nat, rest: bytes, os: seq<StoredOption>, v: Value)
    requires delta < 13 && |value| < 13 && Lookup(last + delta).Some?
    requires AlreadyIn(last + delta, os) ==> Lookup(last + delta).value.repeatable
    requires ParseValue(Lookup(last + delta).value.kind, |value|, value) == Some(v)
    ensures ParseBody([16 * delta + |value|] + value + rest, last, os)
         == ParseBody(rest, last + delta, os + [CoapOption(last + delta, v)])
  {
    hide ParseBody, Lookup, ParseValue;
    var d: bytes := [16 * delta + |value|] + value + rest;
    assert d[1..] == value + rest && d[0] / 16 == delta && d[0] % 16 == |value|;
    assert ReadHeader(d) == Header(delta, |value|, value + rest);
    assert Take(value + rest, |value|) == value && Drop(value + rest, |value|) == rest;
    ParseStored(d, last, os, delta, |value|, value + rest, CoapOption(last + delta, v));
  }

  /**
    An option that is not registered refuses the message if it is critical or above 65535, and is
    skipped with its value otherwise. Critical is a number with its lowest bit set, but from 256 on a
    big-endian machine looks at bit 8 instead.
   */
  lemma UnknownOptionIsParsed(delta: nat, value: bytes, last: nat, rest: bytes, os: seq<StoredOption>)
    requires delta < 13 && |value| < 13 && Lookup(last + delta).None?
    ensures var n := last + delta;
            var parsed := ParseBody([16 * delta + |value|] + value + rest, last, os);
            && (n < 256 ==> parsed == if n % 2 == 1 then BadRequest else ParseBody(rest, n, os))
            && (256 <= n < 65536 && Host == Little ==>
                  parsed == if n % 2 == 1 then BadRequest else ParseBody(rest, n, os))
            && (256 <= n < 65536 && Host == Big ==>
                  parsed == if n / 256 % 2 == 1 then BadRequest else ParseBody(rest, n, os))
            && (65536 <= n ==> parsed == BadRequest)
  {
    hide ParseBody, Lookup;
    var d: bytes := [16 * delta + |value|] + value + rest;
    assert d[1..] == value + rest && d[0] / 16 == delta && d[0] % 16 == |value|;
    assert ReadHeader(d) == Header(delta, |value|, value + rest);
    assert Drop(value + rest, |value|) == rest;
    UnfoldParseBody(d, last, os);
  }

  /** What octets are read as, by the type of the option: big-endian integers, text, and octets as they are. */
  lemma ValueIsParsed(a: byte, b: byte)
    ensures ParseValue(Integer, 0, []) == Some(Int(0)) && ParseValue(Integer, 1, [a]) == Some(Int(a as int))
    ensures ParseValue(Integer, 2, [a, b]) == Some(Int(a as int * 256 + b as int))
    ensures ParseValue(Opaque, 2, [a, b]) == Some(Raw([a, b])) && ParseValue(Opaque, 0, []) == Some(Raw([]))
    ensures a < 128 ==> ParseValue(Text, 1, [a]) == Some(Str([a as char]))
    ensures ParseValue(Text, 1, [255]) == None
  {
    FoldOfTwo(a, b);
    assert [a][..0] == [];
    assert Fold([a]) == a as int;
    assert [a][1..] == [] && [a as char] + "" == [a as char];
    assert DecodeUtf8([]) == Some("");
  }

  // ------------------------------------------------------------------ frames

  /** Section 3.2 of RFC 8323: length and token length, extended length, code, token, options and payload. */
  lemma FrameLayout(m: TcpSerializer.TcpPacket, order: ByteOrder)
    requires TcpSerializer.PrintFrame(m, order).Ok?
    ensures NativeBody(m.options, m.payload, order).Ok?
    ensures var body, tkl := NativeBody(m.options, m.payload, order).value, |m.token|;
            var n := |body|;
            var f := TcpSerializer.PrintFrame(m, order).value;
            && tkl <= 8
            && (n < 13 ==> f == [16 * n + tkl] + [m.code] + m.token + body)
            && (13 <= n < 269 ==> f == [16 * 13 + tkl, n - 13] + [m.code] + m.token + body)
            && (269 <= n < 65805 ==>
                  f == [16 * 14 + tkl, (n - 269) / 256, (n - 269) % 256] + [m.code] + m.token + body)
            && (65805 <= n < 131341 ==>
                  f == [16 * 15 + tkl, 0, 0, (n - 65805) / 256, (n - 65805) % 256] + [m.code] + m.token + body)
  {
    hide NativeBody;
    var n := |NativeBody(m.options, m.payload, order).value|;
    if 13 <= n < 269 {
      assert Words(n - 13, 1) == Words((n - 13) / 256, 0) + [(n - 13) % 256];
    } else if 269 <= n < 65805 {
      WordsOfTwo(n - 269);
    } else if 65805 <= n < 131341 {
      WordsOfFour(n - 65805);
    }
  }

  lemma WordsOfFour(w: nat)
    requires w < 65536
    ensures Words(w, 4) == [0, 0, w / 256, w % 256]
  {
    assert Words(w, 4) == Words(w / 256, 3) + [w % 256];
    assert Words(w / 256, 3) == Words(w / 256 / 256, 2) + [w / 256 % 256];
    WordsOfTwo(0);
  }

  lemma FrameCodesAreKnown(code: nat)
    ensures KnownCode(code) <==> FrameCode(code)
  {
  }

  /** A frame of this shape is parsed into its fields, with the options and the payload of its body. */
  lemma FrameIsParsed(code: nat, token: bytes, body: bytes)
    requires code < 256 && FrameCode(code)
    requires |token| <= 8 && |body| < 13
    ensures TcpSerializer.ParseFrame([16 * |body| + |token|] + [code] + token + body)
         == match ParseBody(body, 0, [])
            case Body(os, p) => TcpSerializer.Message(TcpSerializer.TcpPacket(code, token, os, p))
            case failure => TcpSerializer.Malformed(failure)
  {
    hide ParseBody, KnownCode, FrameCode, TcpSerializer.ExtractSize, TcpSerializer.ParseFrame;
    var a: byte := 16 * |body| + |token|;
    FrameCodesAreKnown(code);
    FrameParts(a, code, token, body);
    ShortFrameSize(|body|, |token|, [code] + token + body);
    SizedIsParsed([a] + [code] + token + body, code, token, body);
  }

  /** Token lengths of 9 to 15 are reserved: an exception escapes, whatever the code and the rest are. */
  lemma LongTokenIsRefused(n: nat, tkl: nat, rest: bytes)
    requires n < 13 && 8 < tkl < 16
    ensures TcpSerializer.ParseFrame([16 * n + tkl] + rest) == TcpSerializer.Malformed(Uncaught)
  {
    hide ParseBody, TcpSerializer.ExtractSize;
    ShortFrameSize(n, tkl, rest);
  }

  lemma ShortFrameSize(n: nat, tkl: nat, rest: bytes)
    requires n < 13 && tkl < 16
    ensures TcpSerializer.ExtractSize([16 * n + tkl] + rest) == Some(TcpSerializer.FrameSize(2, tkl, n))
  {
    FrameSizes(tkl, n, 0, rest);
  }

  lemma FrameParts(a: byte, code: byte, token: bytes, body: bytes)
    ensures var f := [a] + [code] + token + body;
            && f == [a] + ([code] + token + body) && f[1] == code
            && Take(f[2..], |token|) == token && Drop(f[2..], |token|) == body
  {
    var f := [a] + [code] + token + body;
    assert f[2..] == token + body;
  }

  lemma SizedIsParsed(f: bytes, code: nat, token: bytes, body: bytes)
    requires |token| <= 8 && |body| < 13 && |f| >= 2 && f[1] == code && KnownCode(code)
    requires TcpSerializer.ExtractSize(f) == Some(TcpSerializer.FrameSize(2, |token|, |body|))
    requires Take(f[2..], |token|) == token && Drop(f[2..], |token|) == body
    ensures TcpSerializer.ParseFrame(f)
         == match ParseBody(body, 0, [])
            case Body(os, p) => TcpSerializer.Message(TcpSerializer.TcpPacket(f[1], token, os, p))
            case failure => TcpSerializer.Malformed(failure)
  {
    hide ParseBody, KnownCode, TcpSerializer.ExtractSize;
  }

  /** The three numbers of a frame, for every form of its length. */
  lemma FrameSizes(tkl: nat, a: byte, b: byte, rest: bytes)
    requires tkl < 16
    ensures a < 13 ==>
              TcpSerializer.ExtractSize([16 * a as int + tkl] + rest) == Some(TcpSerializer.FrameSize(2, tkl, a as int))
    ensures TcpSerializer.ExtractSize([16 * 13 + tkl, a] + rest) == Some(TcpSerializer.FrameSize(3, tkl, a as int + 13))
    ensures TcpSerializer.ExtractSize([16 * 14 + tkl, a, b] + rest)
         == Some(TcpSerializer.FrameSize(4, tkl, a as int * 256 + b as int + 269))
    ensures TcpSerializer.ExtractSize([16 * 15 + tkl, 0, 0, a, b] + rest)
         == Some(TcpSerializer.FrameSize(6, tkl, a as int * 256 + b as int + 65805))
    ensures TcpSerializer.ExtractSize([]) == TcpSerializer.ExtractSize([16 * 13 + tkl])
         == TcpSerializer.ExtractSize([16 * 14 + tkl, a]) == TcpSerializer.ExtractSize([16 * 15 + tkl, 0, a, b]) == None
  {
    FoldOfTwo(a, b);
    FoldOfFour(a, b);
    assert [a][..0] == [] && Fold([a]) == a as int;
    assert ([16 * 13 + tkl, a] + rest)[1..2] == [a];
    assert ([16 * 14 + tkl, a, b] + rest)[1..3] == [a, b];
    assert ([16 * 15 + tkl, 0, 0, a, b] + rest)[1..5] == [0, 0, a, b];
  }

  lemma FoldOfFour(a: byte, b: byte)
    ensures Fold([0, 0, a, b]) == a as int * 256 + b as int
  {
    assert [0, 0, a, b] == [0] + ([0] + [a, b]);
    LeadingZero([0] + [a, b]);
    LeadingZero([a, b]);
    FoldOfTwo(a, b);
  }

  // ------------------------------------------------------------ the second codec

  /** One option with short fields, written and read by the container. */
  lemma ContainerLayout(o: OptionsCodec.TypedOption, last: nat, data: bytes)
    requires last <= o.number < last + 13 && OptionsCodec.EncodeValue(o.value) == Ok(data) && |data| < 13
    ensures OptionsCodec.EncodeOption(o, last) == Ok([16 * (o.number - last) + |data|] + data)
  {
    assert [16 * (o.number - last) + |data|] + ([] + ([] + data)) == [16 * (o.number - last) + |data|] + data;
  }

  /** Fields of 13 to 268 take one octet more, larger ones two; from 65804 on there is no form. */
  lemma ContainerField(v: nat)
    ensures OptionsCodec.WriteExtended(v) ==
            if v < 65804 then Some((FieldNibble(v), FieldOctets(v))) else None
  {
    if 269 <= v < 65804 {
      WordsOfTwo(v - 269);
    }
  }

  /** The container reads up to the octet 255 and returns what is behind it. */
  lemma ContainerMarker(p: bytes, number: nat, g: OptionsCodec.Groups)
    ensures OptionsCodec.DecodeAll([255] + p, number, g) == (g, OptionsCodec.Rest(p))
    ensures OptionsCodec.DecodeAll([], number, g) == (g, OptionsCodec.Rest([]))
  {
    assert ([255] + p)[1..] == p;
  }

  /** Its values: four packed octets without the zeros in front, and the fields of a block option. */
  lemma ContainerValues(n: nat, num: nat, more: bool, szx: nat)
    ensures OptionsCodec.EncodeValue(OptionsCodec.Uint(0)) == Ok([])
    ensures 0 < n < 256 ==> OptionsCodec.EncodeValue(OptionsCodec.Uint(n)) == Ok([n])
    ensures OptionsCodec.EncodeValue(OptionsCodec.Uint(0x1_0000_0000)) == Raised
    ensures 0 < num * 16 + (if more then 8 else 0) + szx < 256 ==>
              OptionsCodec.EncodeValue(OptionsCodec.Blockwise(num, more, szx))
              == Ok([num * 16 + (if more then 8 else 0) + szx])
  {
    OptionsCodec.Pow256Of4();
    WordsOfFour(0);
    SmallWord(n);
    SmallWord(num * 16 + (if more then 8 else 0) + szx);
    assert OptionsCodec.StripZeros([0, 0, 0, 0]) == [] by {
      assert [0, 0, 0, 0][1..] == [0, 0, 0] && [0, 0, 0][1..] == [0, 0] && [0, 0][1..] == [0] && [0][1..] == [];
    }
  }

  lemma SmallWord(n: nat)
    ensures 0 < n < 256 ==> OptionsCodec.StripZeros(Words(n, 4)) == [n]
  {
    if 0 < n < 256 {
      WordsOfFour(n);
      assert [0, 0, 0, n][1..] == [0, 0, n] && [0, 0, n][1..] == [0, n] && [0, n][1..] == [n];
      assert OptionsCodec.StripZeros([0, 0, 0, n]) == OptionsCodec.StripZeros([0, 0, n])
          == OptionsCodec.StripZeros([0, n]) == OptionsCodec.StripZeros([n]) == [n];
    }
  }
}
