/** Datagrams: SerializerUdp, and Serializer which holds the same code. */
module UdpSerializer {

  import opened Wrappers
  import opened Bytes
  import opened OptionRegistry
  import opened OptionWire
  import opened OptionOrder
  import opened BodyCodec

  const VERSION := 1

  /** A message as the serializer sees it; code None is the empty message. */
  datatype Packet = Packet(typ: nat, code: Option<nat>, mid: nat, token: bytes,
                           options: seq<StoredOption>, payload: Option<bytes>)

  /** What the setters admit: type, id, token length and code. */
  predicate Representable(m: Packet) {
    m.typ < 4 && m.mid <= 0x1_0000 && |m.token| <= 256 && (m.code.Some? ==> KnownCode(m.code.value))
  }

  datatype Received = Message(packet: Packet) | Malformed(failure: Body)

  // ---------------------------------------------------------------- printing

  /** The first octet; a token length of 16 or more runs into the bits of version and type. */
  function FirstOctet(typ: nat, tkl: nat): (b: nat)
    requires typ < 4 && tkl < 256
    ensures b < 256 && b % 16 == tkl % 16
    ensures tkl < 16 ==> b / 64 == VERSION && b / 16 % 4 == typ
  {
    BitOrOfNibbles(VERSION * 4 + typ, tkl / 16);
    BitOr(VERSION * 4 + typ, tkl / 16) * 16 + tkl % 16
  }

  /** The header can be packed: the token length fits the first octet, the id two octets. */
  predicate Packable(m: Packet) { m.mid < 0x1_0000 && |m.token| < 256 }

  function CodeOctet(m: Packet): byte
    requires Representable(m)
  {
    if m.code.None? then 0 else m.code.value
  }

  function PrintHeader(m: Packet): (b: bytes)
    requires Representable(m) && Packable(m)
    ensures |b| == 4
  {
    [FirstOctet(m.typ, |m.token|), CodeOctet(m)] + Words(m.mid, 2)
  }

  function Zeros(n: nat): (b: bytes)
    ensures |b| == n
  {
    seq(n, _ => 0)
  }

  /** Packing stops at a field that does not fit, and the buffer is returned as it is then. */
  function PrintDatagram(m: Packet): Result<bytes>
    requires Representable(m)
  {
    match PrintBody(m.options, m.payload)
    case Raised => Raised
    case Ok(body) =>
      if |m.token| == 256 then Ok(Zeros(4 + |m.token| + |body|))
      else if m.mid == 0x1_0000 then Ok([FirstOctet(m.typ, |m.token|), CodeOctet(m)] + Zeros(2 + |m.token| + |body|))
      else Ok(PrintHeader(m) + m.token + body)
  }

  method Serialize(message: Packet) returns (datagram: Result<bytes>)
    requires Representable(message)
    ensures datagram == PrintDatagram(message)
  {
    var tkl := |message.token|;
    var body := WriteBody(message.options, message.payload);
    if body.Raised? {
      return Raised;
    }
    if tkl > 255 {
      return Ok(Zeros(4 + tkl + |body.value|));
    }
    var first, code := FirstOctet(message.typ, tkl), CodeOctet(message);
    if message.mid > 0xFFFF {
      return Ok([first, code] + Zeros(2 + tkl + |body.value|));
    }
    var values: bytes := [first, code] + Words(message.mid, 2);
    if tkl > 0 {
      values := values + message.token;
    }
    assert values == PrintHeader(message) + message.token;
    datagram := Ok(values + body.value);
  }

  // ----------------------------------------------------------------- parsing

  /** Request and Response check the code against the known ones; a plain Message drops it. */
  function ReadCode(code: nat): Result<Option<nat>> {
    if !IsResponse(code) && !IsRequest(code) then Ok(None)
    else if KnownCode(code) then Ok(Some(code))
    else Raised
  }

  /** drawn is the random token that the setter draws for a zero token length. */
  function ParseDatagram(d: bytes, drawn: bytes): Received {
    if |d| < 4 then Malformed(BadRequest)
    else
      var code := ReadCode(d[1]);
      if code.Raised? || d[0] / 64 != VERSION then Malformed(BadRequest)
      else
        var tkl := d[0] % 16;
        match ParseBody(Drop(d, 4 + tkl), 0, [])
        case Body(options, payload) =>
          var token := if tkl > 0 then Take(d[4..], tkl) else drawn;
          Message(Packet(d[0] / 16 % 4, code.value, Fold(d[2..4]), token, options, payload))
        case failure => Malformed(failure)
  }

  method Deserialize(datagram: bytes, drawn: bytes) returns (message: Received)
    ensures message == ParseDatagram(datagram, drawn)
  {
    if |datagram| < 4 {
      return Malformed(BadRequest);
    }
    var first, codeByte, mid := datagram[0], datagram[1], Fold(datagram[2..4]);
    var version := first / 64;
    var messageType := first / 16 % 4;
    var tokenLength := first % 16;
    var code := ReadCode(codeByte);
    if code.Raised? || version != VERSION {
      return Malformed(BadRequest);
    }
    var token := if tokenLength > 0 then Take(datagram[4..], tokenLength) else drawn;
    var body := ReadBody(Drop(datagram, 4 + tokenLength));
    match body
    case Body(options, payload) =>
      message := Message(Packet(messageType, code.value, mid, token, options, payload));
    case BadRequest => message := Malformed(body);
    case Uncaught => message := Malformed(body);
  }

  // -------------------------------------------------------------- round trip

  /** What a message becomes when it is written and read back. */
  function Canonical(m: Packet, drawn: bytes): Packet {
    m.(code := if m.code.Some? && (IsRequest(m.code.value) || IsResponse(m.code.value)) then m.code else None,
       token := if m.token == [] then drawn else m.token,
       options := RereadAll(SortByNumber(m.options)),
       payload := if m.payload == Some([]) then None else m.payload)
  }

  lemma ParsePrintedHeader(m: Packet, body: bytes)
    requires Representable(m) && m.mid < 0x1_0000 && |m.token| < 16
    ensures var d := PrintHeader(m) + m.token + body;
            && d[0] / 64 == VERSION && d[0] / 16 % 4 == m.typ && d[0] % 16 == |m.token|
            && d[1] == (if m.code.None? then 0 else m.code.value) && Fold(d[2..4]) == m.mid
            && Take(d[4..], |m.token|) == m.token && Drop(d, 4 + |m.token|) == body
  {
    var d := PrintHeader(m) + m.token + body;
    assert d[2..4] == Words(m.mid, 2);
    assert Pow256(2) == 256 * Pow256(1) == 256 * (256 * Pow256(0));
    FoldOfWords(m.mid, 2);
    assert d[4..] == m.token + body;
  }

  /** Round trip of every well-formed message with a header that can be read and texts in ASCII. */
  lemma DatagramRoundTrip(m: Packet, drawn: bytes)
    requires Representable(m) && WellFormed(m.options)
    ensures PrintDatagram(m).Ok?
    ensures m.mid < 0x1_0000 && |m.token| < 16 && AllPlain(m.options) ==>
              ParseDatagram(PrintDatagram(m).value, drawn) == Message(Canonical(m, drawn))
  {
    hide PrintBody, ParseBody, PrintHeader, SortByNumber, RereadAll, WellFormed, AllPlain;
    BodyRoundTrip(m.options, m.payload);
    if m.mid < 0x1_0000 && |m.token| < 16 {
      ParsePrintedHeader(m, PrintBody(m.options, m.payload).value);
    }
  }

  /** With a longer token the datagram never yields the message: it has another token, if it is accepted at all. */
  lemma LongTokenIsLost(m: Packet, drawn: bytes)
    requires Representable(m) && |m.token| >= 16 && |drawn| == 8 && PrintDatagram(m).Ok?
    ensures var r := ParseDatagram(PrintDatagram(m).value, drawn);
            r.Message? ==> |r.packet.token| < 16
  {
    hide PrintBody, ParseBody, KnownCode;
    var d := PrintDatagram(m).value;
    if |m.token| == 256 {
      assert d[0] == 0;
    } else {
      assert d[0] % 16 == |m.token| % 16;
    }
  }

  /** Whatever is accepted has an id of two octets. */
  lemma ParsedIdFits(d: bytes, drawn: bytes)
    ensures var r := ParseDatagram(d, drawn);
            r.Message? ==> r.packet.mid < 0x1_0000
  {
    hide ParseBody, KnownCode;
    if |d| >= 4 {
      WordsOfFold(d[2..4]);
      assert Pow256(2) == 256 * Pow256(1) == 256 * (256 * Pow256(0));
    }
  }

  /** With a text outside ASCII the datagram yields another list of options, if it is accepted at all. */
  lemma LongTextInDatagram(m: Packet, drawn: bytes)
    requires Representable(m) && m.mid < 0x1_0000 && |m.token| < 16 && WellFormed(m.options) && !AllPlain(m.options)
    requires PrintDatagram(m).Ok?
    ensures var r := ParseDatagram(PrintDatagram(m).value, drawn);
            r.Message? ==> r.packet.options != SortByNumber(m.options)
  {
    hide PrintBody, ParseBody, PrintHeader, SortByNumber, WellFormed, AllPlain;
    BodyRoundTrip(m.options, m.payload);
    ParsePrintedHeader(m, PrintBody(m.options, m.payload).value);
  }

  predicate HasEmptyString(os: seq<StoredOption>) {
    exists i :: 0 <= i < |os| && os[i].value == Str("")
  }

  /** What a caller must avoid for a message to arrive as it was sent. */
  predicate Transmissible(m: Packet) {
    && 0 < |m.token| < 16 && m.mid < 0x1_0000
    && AllPlain(m.options) && !HasEmptyString(m.options)
    && (m.code.Some? ==> IsRequest(m.code.value) || IsResponse(m.code.value))
    && m.payload != Some([])
  }

  lemma RereadUnchanged(os: seq<StoredOption>)
    ensures RereadAll(os) == os <==> !HasEmptyString(os)
  {
    if HasEmptyString(os) {
      var i :| 0 <= i < |os| && os[i].value == Str("");
      assert |RereadAll(os)[i].value.s| == 3;
    }
  }

  lemma SortKeepsEmptyStrings(os: seq<StoredOption>)
    ensures HasEmptyString(SortByNumber(os)) <==> HasEmptyString(os)
  {
    hide SortByNumber;
    SortIsStable(os);
    var r := SortByNumber(os);
    if HasEmptyString(r) {
      var i :| 0 <= i < |r| && r[i].value == Str("");
      assert r[i] in multiset(os);
    }
    if HasEmptyString(os) {
      var i :| 0 <= i < |os| && os[i].value == Str("");
      assert os[i] in multiset(r);
    }
  }

  /**
    A well-formed message arrives unchanged but for the stable sort of its options,
    exactly when it is Transmissible.
   */
  lemma UdpRoundTrip(m: Packet, drawn: bytes)
    requires Representable(m) && WellFormed(m.options) && |drawn| == 8
    ensures PrintDatagram(m).Ok?
    ensures ParseDatagram(PrintDatagram(m).value, drawn) == Message(m.(options := SortByNumber(m.options)))
       <==> Transmissible(m)
  {
    hide PrintDatagram, ParseDatagram, WellFormed, SortByNumber, RereadAll, HasEmptyString, AllPlain;
    DatagramRoundTrip(m, drawn);
    if |m.token| >= 16 {
      LongTokenIsLost(m, drawn);
    } else if m.mid == 0x1_0000 {
      ParsedIdFits(PrintDatagram(m).value, drawn);
    } else if !AllPlain(m.options) {
      LongTextInDatagram(m, drawn);
    } else {
      RereadUnchanged(SortByNumber(m.options));
      SortKeepsEmptyStrings(m.options);
    }
  }

  /** Everything the parser accepts can be written again, and its options are in order. */
  lemma AcceptedIsRepresentable(d: bytes, drawn: bytes)
    requires |drawn| == 8 && ParseDatagram(d, drawn).Message?
    ensures var m := ParseDatagram(d, drawn).packet;
            && Representable(m) && m.mid < 0x1_0000 && |m.token| < 16 && WellFormed(m.options) && Sorted(m.options)
            && (m.code.Some? ==> IsRequest(m.code.value) || IsResponse(m.code.value))
            && m.payload != Some([])
            && (m.token == [] <==> |d| == 4 && d[0] % 16 > 0)
  {
    hide ParseBody, WellFormed, Sorted, Consistent, KnownCode, IsRequest, IsResponse;
    EmptyIsConsistent();
    ParsedBodyIsWellFormed(Drop(d, 4 + d[0] % 16), 0, []);
    WordsOfFold(d[2..4]);
    assert Pow256(2) == 256 * Pow256(1) == 256 * (256 * Pow256(0));
  }

  /**
    Parse, print, parse: an accepted datagram is read back as the same message, unless it
    ended right behind the header although it announced a token, ended inside the header of a
    string option, or carried a text outside ASCII. Skipped options, leading zeros and drawn tokens do not matter.
   */
  lemma ParsePrintParse(d: bytes, drawn: bytes, drawn': bytes)
    requires |drawn| == |drawn'| == 8 && ParseDatagram(d, drawn).Message?
    ensures var m := ParseDatagram(d, drawn).packet;
            && Representable(m) && PrintDatagram(m).Ok?
            && (ParseDatagram(PrintDatagram(m).value, drawn') == Message(m)
                <==> !(|d| == 4 && d[0] % 16 > 0) && !HasEmptyString(m.options) && AllPlain(m.options))
  {
    hide PrintDatagram, ParseDatagram, WellFormed, SortByNumber, HasEmptyString, AllPlain;
    var m := ParseDatagram(d, drawn).packet;
    AcceptedIsRepresentable(d, drawn);
    SortedIsUnchanged(m.options);
    UdpRoundTrip(m, drawn');
  }
}
