/** Frames of CoAP over TCP: SerializerTcp and the length prefix helpers. */
module TcpSerializer {

  import opened Wrappers
  import opened Bytes
  import opened Utf8
  import opened OptionRegistry
  import opened OptionWire
  import opened OptionOrder
  import opened BodyCodec
  import opened TcpPacking

  // ------------------------------------------------------------ length prefix

  /** The constant part, the token length, and the length of options and payload. */
  datatype FrameSize = FrameSize(tokenOffset: nat, tkl: nat, length: nat) {
    function Sum(): nat { tokenOffset + tkl + length }
  }

  /** _extract_message_size; None when the data is too short to tell. */
  function ExtractSize(data: bytes): (size: Option<FrameSize>)
    ensures size.Some? ==> size.value.Sum() >= 2
  {
    if data == [] then None
    else
      var l := data[0] as int / 16;
      var tkl := data[0] as int % 16;
      if l < 13 then Some(FrameSize(2, tkl, l))
      else
        var extlen := if l == 13 then 1 else if l == 14 then 2 else 4;
        var offset := if l == 13 then 13 else if l == 14 then 269 else 65805;
        if |data| < extlen + 1 then None
        else Some(FrameSize(2 + extlen, tkl, Fold(data[1..1 + extlen]) + offset))
  }

  /** _encode_length; a length that does not fit four octets raises. */
  function EncodeLength(l: nat): Result<(nat, bytes)> {
    if l < 13 then Ok((l, []))
    else if l < 269 then Ok((13, Words(l - 13, 1)))
    else if l < 65805 then Ok((14, Words(l - 269, 2)))
    else if l - 65805 < 0x1_0000_0000 then Ok((15, Words(l - 65805, 4)))
    else Raised
  }

  lemma SmallPowers()
    ensures Pow256(1) == 0x100 && Pow256(2) == 0x1_0000 && Pow256(4) == 0x1_0000_0000
  {
    assert Pow256(1) == 256 * Pow256(0);
    assert Pow256(4) == 256 * Pow256(3) == 256 * (256 * Pow256(2));
  }

  lemma ExtractExtended(nibble: nat, ext: bytes, tkl: nat, rest: bytes)
    requires tkl < 16 && 13 <= nibble < 16
    requires |ext| == if nibble == 13 then 1 else if nibble == 14 then 2 else 4
    ensures ExtractSize([nibble * 16 + tkl] + ext + rest) == Some(FrameSize(2 + |ext|, tkl,
              Fold(ext) + if nibble == 13 then 13 else if nibble == 14 then 269 else 65805))
  {
    hide Fold;
    var data := [nibble * 16 + tkl] + ext + rest;
    assert data[1..1 + |ext|] == ext;
  }

  lemma ExtractShort(l: nat, tkl: nat, rest: bytes)
    requires l < 13 && tkl < 16
    ensures ExtractSize([l * 16 + tkl] + [] + rest) == Some(FrameSize(2, tkl, l))
  {
    assert ([l * 16 + tkl] + [] + rest)[0] == l * 16 + tkl;
  }

  lemma FoldExtended(l: nat)
    requires 13 <= l && EncodeLength(l).Ok?
    ensures var (nibble, ext) := EncodeLength(l).value;
            && 13 <= nibble < 16 && |ext| == (if nibble == 13 then 1 else if nibble == 14 then 2 else 4)
            && Fold(ext) + (if nibble == 13 then 13 else if nibble == 14 then 269 else 65805) == l
  {
    hide Fold, Words, Pow256;
    SmallPowers();
    if l < 269 {
      FoldOfWords(l - 13, 1);
    } else if l < 65805 {
      FoldOfWords(l - 269, 2);
    } else {
      FoldOfWords(l - 65805, 4);
    }
  }

  lemma ExtractEncodedLength(l: nat, tkl: nat, rest: bytes)
    requires EncodeLength(l).Ok? && tkl < 16
    ensures var (nibble, ext) := EncodeLength(l).value;
            nibble < 16 && ExtractSize([nibble * 16 + tkl] + ext + rest) == Some(FrameSize(2 + |ext|, tkl, l))
  {
    hide ExtractSize;
    if l < 13 {
      ExtractShort(l, tkl, rest);
    } else {
      hide EncodeLength, Fold;
      FoldExtended(l);
      var (nibble, ext) := EncodeLength(l).value;
      ExtractExtended(nibble, ext, tkl, rest);
    }
  }

  /** Once the size can be told, more data does not change it. */
  lemma SizeIsStable(data: bytes, more: bytes)
    requires ExtractSize(data).Some?
    ensures ExtractSize(data + more) == ExtractSize(data)
  {
    var whole := data + more;
    assert whole[0] == data[0];
    assert |data| >= 2 ==> whole[1..2] == data[1..2];
    assert |data| >= 3 ==> whole[1..3] == data[1..3];
    assert |data| >= 5 ==> whole[1..5] == data[1..5];
  }

  // ----------------------------------------------------------------- messages

  datatype TcpPacket = TcpPacket(code: byte, token: bytes, options: seq<StoredOption>, payload: Option<bytes>)

  datatype Arrived = Message(packet: TcpPacket) | Malformed(failure: Body)

  function PrintFrame(m: TcpPacket, order: ByteOrder): Result<bytes> {
    match NativeBody(m.options, m.payload, order)
    case Raised => Raised
    case Ok(body) =>
      match EncodeLength(|body|)
      case Raised => Raised
      case Ok((l, ext)) =>
        if |m.token| > 8 then Raised
        else Ok([l * 16 + |m.token|] + ext + [m.code] + m.token + body)
  }

  method Serialize(message: TcpPacket, order: ByteOrder) returns (datagram: Result<bytes>)
    ensures datagram == PrintFrame(message, order)
  {
    hide NativeBody;
    var body := WriteNativeBody(message.options, message.payload, order);
    if body.Raised? {
      return Raised;
    }
    var length := EncodeLength(|body.value|);
    if length.Raised? || |message.token| > 8 {
      return Raised;
    }
    var (l, ext) := length.value;
    datagram := Ok([l * 16 + |message.token|] + ext + [message.code] + message.token + body.value);
  }

  function ParseFrame(d: bytes): Arrived {
    match ExtractSize(d)
    case None => Malformed(Uncaught)
    case Some(size) =>
      if size.tkl > 8 || |d| < size.tokenOffset then Malformed(Uncaught)
      else
        var code := d[size.tokenOffset - 1];
        if !KnownCode(code) then Malformed(BadRequest)
        else
          var rest := d[size.tokenOffset..];
          match ParseBody(Drop(rest, size.tkl), 0, [])
          case Body(options, payload) => Message(TcpPacket(code, Take(rest, size.tkl), options, payload))
          case failure => Malformed(failure)
  }

  method Deserialize(datagram: bytes) returns (message: Arrived)
    ensures message == ParseFrame(datagram)
  {
    var size := ExtractSize(datagram);
    if size.None? || size.value.tkl > 8 || |datagram| < size.value.tokenOffset {
      return Malformed(Uncaught);
    }
    var FrameSize(tokenOffset, tkl, _) := size.value;
    var code := datagram[tokenOffset - 1];
    if !KnownCode(code) {
      return Malformed(BadRequest);
    }
    var token := Take(datagram[tokenOffset..], tkl);
    var body := ReadBody(Drop(datagram[tokenOffset..], tkl));
    match body
    case Body(options, payload) => message := Message(TcpPacket(code, token, options, payload));
    case BadRequest => message := Malformed(body);
    case Uncaught => message := Malformed(body);
  }

  // ------------------------------------------------------------- round trip

  /** The size numbers of a frame add up to its length, whatever follows it. */
  lemma FrameAnnouncesItsLength(m: TcpPacket, order: ByteOrder, rest: bytes)
    requires PrintFrame(m, order).Ok?
    ensures var f := PrintFrame(m, order).value;
            ExtractSize(f + rest).Some? && ExtractSize(f + rest).value.Sum() == |f|
  {
    hide NativeBody, ExtractSize, EncodeLength;
    var body := NativeBody(m.options, m.payload, order).value;
    var (l, ext) := EncodeLength(|body|).value;
    var tail := [m.code] + m.token + body + rest;
    ExtractEncodedLength(|body|, |m.token|, tail);
    assert PrintFrame(m, order).value + rest == [l * 16 + |m.token|] + ext + tail;
  }

  /** A proper prefix of a frame announces more than it holds, or nothing yet. */
  lemma FrameIsSelfDelimiting(m: TcpPacket, order: ByteOrder, k: nat)
    requires PrintFrame(m, order).Ok? && k < |PrintFrame(m, order).value|
    ensures var size := ExtractSize(PrintFrame(m, order).value[..k]);
            size.Some? ==> size.value.Sum() > k
  {
    hide PrintFrame, ExtractSize;
    var f := PrintFrame(m, order).value;
    if ExtractSize(f[..k]).Some? {
      SizeIsStable(f[..k], f[k..]);
      assert f[..k] + f[k..] == f;
      FrameAnnouncesItsLength(m, order, []);
      assert f + [] == f;
    }
  }

  /** A frame whose body is B is parsed as B is. */
  lemma ParseFrameOf(m: TcpPacket, order: ByteOrder)
    requires KnownCode(m.code) && PrintFrame(m, order).Ok?
    ensures ParseFrame(PrintFrame(m, order).value) ==
            match ParseBody(NativeBody(m.options, m.payload, order).value, 0, [])
            case Body(options, payload) => Message(TcpPacket(m.code, m.token, options, payload))
            case failure => Malformed(failure)
  {
    hide NativeBody, ParseBody, ExtractSize, EncodeLength, KnownCode;
    var body := NativeBody(m.options, m.payload, order).value;
    var (l, ext) := EncodeLength(|body|).value;
    var f := PrintFrame(m, order).value;
    ExtractEncodedLength(|body|, |m.token|, [m.code] + m.token + body);
    assert f == [l * 16 + |m.token|] + ext + ([m.code] + m.token + body);
    var size := ExtractSize(f).value;
    assert f[size.tokenOffset - 1] == m.code;
    assert f[size.tokenOffset..] == m.token + body;
    assert Take(m.token + body, |m.token|) == m.token && Drop(m.token + body, |m.token|) == body;
  }

  /** The parser reads back what the frame of the message says. */
  predicate Readable(m: TcpPacket, order: ByteOrder) {
    var os := SortByNumber(m.options);
    AllFit(os, 0) && ReadsBack(os, 0, 0, order, PayloadSection(m.payload) != [])
  }

  /** What a message becomes that is read back: only the option order and empty values can change. */
  function Arrival(m: TcpPacket): TcpPacket {
    m.(options := RereadAll(SortByNumber(m.options)),
       payload := if m.payload == Some([]) then None else m.payload)
  }

  /** The frame of a well-formed message is read back if and only if it is readable. */
  lemma FrameRoundTrip(m: TcpPacket, order: ByteOrder)
    requires KnownCode(m.code) && WellFormed(m.options) && PrintFrame(m, order).Ok?
    ensures ParseFrame(PrintFrame(m, order).value) == Message(Arrival(m)) <==> Readable(m, order)
  {
    hide ParseBody, SortByNumber, RereadAll, WellFormed, KnownCode, AllFit, PrintFrame, ParseFrame, NativeOptions,
      ReadsBack;
    NativeBodyReadsBack(m.options, m.payload, order);
    ParseFrameOf(m, order);
  }

  /** On every machine a message is readable if its texts are ASCII and no option needs a two-octet field. */
  lemma NarrowFrameRoundTrip(m: TcpPacket, order: ByteOrder)
    requires KnownCode(m.code) && WellFormed(m.options) && PrintFrame(m, order).Ok?
    requires AllPlain(m.options) && Narrow(SortByNumber(m.options), 0)
    ensures ParseFrame(PrintFrame(m, order).value) == Message(Arrival(m))
  {
    hide ParseFrame, SortByNumber, WellFormed, KnownCode, AllPlain, AllFit, PrintFrame, Narrow, ReadsBack;
    SortKeepsPlain(m.options);
    NarrowReadsBack(SortByNumber(m.options), 0, 0, order, PayloadSection(m.payload) != []);
    FrameRoundTrip(m, order);
  }

  /** A value of 270 octets, whose swapped length reads as 525, is found where nothing follows it. */
  lemma SwappedLengthAtTheEnd(m: TcpPacket, uri: string)
    requires m.options == [CoapOption(35, Str(uri))] && |uri| == 270 && Ascii(uri)
    requires KnownCode(m.code) && PrintFrame(m, Little).Ok?
    ensures WellFormed(m.options)
    ensures ParseFrame(PrintFrame(m, Little).value) == Message(Arrival(m))
            <==> m.payload == None || m.payload == Some([])
  {
    hide ParseFrame, KnownCode, PrintFrame;
    assert m.options[..0] == [] && SortByNumber(m.options) == m.options by { SortedIsUnchanged(m.options); }
    PlainLength(Str(uri));
    assert Length(Str(uri)) == |ValueBytes(Str(uri))| == 270;
    assert Announced(270, Little) == 525 && Announced(35, Little) == 35 && |Extended(35)| == 1;
    hide ValueBytes, Length, Announced, Extended, SortByNumber;
    var more := PayloadSection(m.payload) != [];
    assert m.options[1..] == [];
    assert AllFit(m.options, 0);
    assert ReadsBack(m.options, 0, 0, Little, more) <==> !more;
    FrameRoundTrip(m, Little);
  }

  /** On no machine is a frame read back whose first option is one of the two OCF versions: the delta is padded. */
  lemma OcfVersionIsLost(m: TcpPacket, order: ByteOrder)
    requires KnownCode(m.code) && WellFormed(m.options) && PrintFrame(m, order).Ok?
    requires var os := SortByNumber(m.options);
             os != [] && (os[0].number == 2049 || os[0].number == 2053)
    ensures ParseFrame(PrintFrame(m, order).value) != Message(Arrival(m))
  {
    hide ParseFrame, SortByNumber, WellFormed, KnownCode, PrintFrame;
    FrameRoundTrip(m, order);
  }

  /** What makes a message printable at all: a short token and at most 2^32 + 65804 octets of body. */
  lemma PrintableFrames(m: TcpPacket, order: ByteOrder)
    requires WellFormed(m.options)
    ensures NativeBody(m.options, m.payload, order).Ok?
    ensures PrintFrame(m, order).Ok? <==>
            |m.token| <= 8 && |NativeBody(m.options, m.payload, order).value| < 0x1_0000_0000 + 65805
  {
    hide ParseBody, SortByNumber, WellFormed, KnownCode, AllFit, NativeOptions, PrintOptions;
    BodyRoundTrip(m.options, m.payload);
  }
}
